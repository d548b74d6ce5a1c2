/** Whole runs of .well-known lookups and stores. */
module WellKnownRuns {
  import opened Common
  import opened WellKnown
  import opened Text
  import TtlCache

  type Entry = TtlCache.Entry<string, Option<string>>

  datatype Op =
    | LookUpOp(server: string, now: real)
    | StoreOp(server: string, response: Response, jitter: real, at: real, asked: real, now: real)

  function Begin(op: Op): real {
    if op.StoreOp? then op.asked else op.now
  }

  /** The cache's clock never goes back, and jitter is within its range. */
  predicate Timely(start: real, ops: seq<Op>) {
    && (forall i | 0 <= i < |ops| :: start <= Begin(ops[i]) <= ops[i].now)
    && (forall i, j | 0 <= i < j < |ops| :: ops[i].now <= Begin(ops[j]))
    && (forall i | 0 <= i < |ops| && ops[i].StoreOp? :: 0.0 <= ops[i].jitter <= WELL_KNOWN_DEFAULT_CACHE_PERIOD_JITTER)
  }

  /** The operation puts an answer for the server into the cache. */
  predicate Caches(parsers: Parsers, op: Op, server: string) {
    && op.StoreOp? && op.server == server && op.jitter <= WELL_KNOWN_DEFAULT_CACHE_PERIOD_JITTER
    && Period(parsers, op.response, op.jitter, op.at) > 0.0
  }

  /** Position j is the last one before n that cached an answer for the server. */
  predicate LastCached(parsers: Parsers, ops: seq<Op>, n: nat, server: string, j: nat) {
    && j < n <= |ops| && Caches(parsers, ops[j], server)
    && forall m | j < m < n :: !Caches(parsers, ops[m], server)
  }

  /** The cached answer of position j is due for the lookup at position i. */
  predicate ServedFrom(parsers: Parsers, ops: seq<Op>, j: nat, i: nat) {
    && j < i < |ops| && LastCached(parsers, ops, i, ops[i].server, j)
    && ops[i].now < ops[j].asked + Period(parsers, ops[j].response, ops[j].jitter, ops[j].at)
  }

  /** The entry that the operation writes. */
  predicate Writes(parsers: Parsers, op: Op, e: Entry) {
    && op.StoreOp? && op.jitter <= WELL_KNOWN_DEFAULT_CACHE_PERIOD_JITTER
    && e == TtlCache.Entry(op.asked + Period(parsers, op.response, op.jitter, op.at), op.server, Result(op.response))
  }

  ghost predicate ComesFrom(parsers: Parsers, ops: seq<Op>, n: nat, server: string, e: Entry) {
    exists j: nat :: LastCached(parsers, ops, n, server, j) && Writes(parsers, ops[j], e)
  }

  /** The last writes of the cache are those of the run. */
  ghost predicate Recorded(parsers: Parsers, ops: seq<Op>, n: nat, written: map<string, Entry>) {
    && (forall k | k in written :: ComesFrom(parsers, ops, n, k, written[k]))
    && (forall k, j: nat | LastCached(parsers, ops, n, k, j) :: k in written)
  }

  lemma LastCachedUnique(parsers: Parsers, ops: seq<Op>, n: nat, server: string, a: nat, b: nat)
    requires LastCached(parsers, ops, n, server, a) && LastCached(parsers, ops, n, server, b)
    ensures a == b
  {
    hide Caches;
  }

  lemma LastCachedStep(parsers: Parsers, ops: seq<Op>, n: nat, server: string, j: nat)
    requires n < |ops|
    ensures LastCached(parsers, ops, n + 1, server, j) <==>
            if Caches(parsers, ops[n], server) then j == n else LastCached(parsers, ops, n, server, j)
  {
    hide Caches;
  }

  lemma RecordedSkip(parsers: Parsers, ops: seq<Op>, n: nat, written: map<string, Entry>)
    requires Recorded(parsers, ops, n, written) && n < |ops| && forall k :: !Caches(parsers, ops[n], k)
    ensures Recorded(parsers, ops, n + 1, written)
  {
    hide Caches, LastCached, Writes;
    forall k | k in written
      ensures ComesFrom(parsers, ops, n + 1, k, written[k])
    {
      StillFrom(parsers, ops, n, k, written[k]);
    }
    var next := n + 1;
    forall k, j: nat | LastCached(parsers, ops, next, k, j)
      ensures k in written
    {
      LastCachedStep(parsers, ops, n, k, j);
    }
  }

  lemma StillFrom(parsers: Parsers, ops: seq<Op>, n: nat, server: string, e: Entry)
    requires ComesFrom(parsers, ops, n, server, e) && n < |ops| && !Caches(parsers, ops[n], server)
    ensures ComesFrom(parsers, ops, n + 1, server, e)
  {
    hide Caches, Writes;
    var j: nat :| LastCached(parsers, ops, n, server, j) && Writes(parsers, ops[j], e);
    LastCachedStep(parsers, ops, n, server, j);
  }

  lemma RecordedStore(parsers: Parsers, ops: seq<Op>, n: nat, written: map<string, Entry>, e: Entry)
    requires Recorded(parsers, ops, n, written) && n < |ops| && Caches(parsers, ops[n], ops[n].server) && Writes(parsers, ops[n], e)
    ensures Recorded(parsers, ops, n + 1, written[ops[n].server := e])
  {
    var server, more := ops[n].server, written[ops[n].server := e];
    assert forall k | k != server :: !Caches(parsers, ops[n], k);
    hide Caches, LastCached, Writes;
    forall k | k in more
      ensures ComesFrom(parsers, ops, n + 1, k, more[k])
    {
      if k == server { LastCachedStep(parsers, ops, n, server, n); } else { StillFrom(parsers, ops, n, k, written[k]); }
    }
    var next := n + 1;
    forall k, j: nat | LastCached(parsers, ops, next, k, j)
      ensures k in more
    {
      LastCachedStep(parsers, ops, n, k, j);
    }
  }

  /** What a lookup at position i must be answered with: a hit exactly when some earlier store serves it, and
      then that store's answer, less than 48 hours after it was stored. */
  ghost predicate ServedRightly(parsers: Parsers, ops: seq<Op>, i: nat, answer: Option<Option<string>>)
    requires i < |ops|
  {
    && (answer.Some? <==> exists j: nat :: ServedFrom(parsers, ops, j, i))
    && (forall j: nat | ServedFrom(parsers, ops, j, i) ::
          && ops[j].StoreOp? && answer == Some(if ops[j].response.Answered? then Some(ops[j].response.server) else None)
          && ops[j].asked <= ops[i].now < ops[j].asked + 48.0 * 3600.0)
  }

  /** What a fetch gives to the caller that made it, cached or not. */
  function FetchAnswer(response: Response): Option<Option<string>> {
    match response
    case NotAscii => None
    case Failed => Some(None)
    case Answered(name, _) => Some(Some(name))
  }

  /** Every lookup is served rightly, and every fetch gives its own answer to its caller. */
  ghost predicate AnsweredRightly(parsers: Parsers, ops: seq<Op>, i: nat, answer: Option<Option<string>>)
    requires i < |ops|
  {
    if ops[i].LookUpOp? then ServedRightly(parsers, ops, i, answer) else answer == FetchAnswer(ops[i].response)
  }

  lemma LookUpServed(parsers: Parsers, start: real, ops: seq<Op>, i: nat, written: map<string, Entry>)
    requires Timely(start, ops) && i < |ops| && ops[i].LookUpOp? && Recorded(parsers, ops, i, written)
    ensures var server, now := ops[i].server, ops[i].now;
            ServedRightly(parsers, ops, i, if TtlCache.Live(written, server, now) then Some(written[server].value) else None)
  {
    hide Caches, Period;
    var server, now := ops[i].server, ops[i].now;
    forall j: nat | LastCached(parsers, ops, i, server, j)
      ensures server in written && Caches(parsers, ops[j], server) && Writes(parsers, ops[j], written[server])
      ensures ServedFrom(parsers, ops, j, i) <==> TtlCache.Live(written, server, now)
    {
      StoreIsStore(parsers, ops[j], server);
      assert ComesFrom(parsers, ops, i, server, written[server]);
      var b: nat :| LastCached(parsers, ops, i, server, b) && Writes(parsers, ops[b], written[server]);
      LastCachedUnique(parsers, ops, i, server, j, b);
    }
    forall j: nat | ServedFrom(parsers, ops, j, i)
      ensures ops[j].StoreOp? && ops[j].asked <= now < ops[j].asked + 48.0 * 3600.0
    {
      StoreIsStore(parsers, ops[j], server);
      PeriodBounds(parsers, ops[j].response, ops[j].jitter, ops[j].at);
    }
    if TtlCache.Live(written, server, now) {
      assert ComesFrom(parsers, ops, i, server, written[server]);
      var b: nat :| LastCached(parsers, ops, i, server, b) && Writes(parsers, ops[b], written[server]);
      assert ServedFrom(parsers, ops, b, i);
    }
  }

  lemma StoreIsStore(parsers: Parsers, op: Op, server: string)
    requires Caches(parsers, op, server)
    ensures op.StoreOp? && op.server == server && op.jitter <= WELL_KNOWN_DEFAULT_CACHE_PERIOD_JITTER
  {
  }

  lemma RecordedNext(parsers: Parsers, start: real, ops: seq<Op>, n: nat, written: map<string, Entry>, after: map<string, Entry>)
    requires Timely(start, ops) && n < |ops| && ops[n].StoreOp? && Recorded(parsers, ops, n, written)
    requires var op := ops[n];
             var period := Period(parsers, op.response, op.jitter, op.at);
             after == if period > 0.0 then written[op.server := TtlCache.Entry(op.asked + period, op.server, Result(op.response))]
                      else written
    ensures Recorded(parsers, ops, n + 1, after)
  {
    hide Recorded, Period;
    var op := ops[n];
    var period := Period(parsers, op.response, op.jitter, op.at);
    if period > 0.0 {
      RecordedStore(parsers, ops, n, written, TtlCache.Entry(op.asked + period, op.server, Result(op.response)));
    } else {
      RecordedSkip(parsers, ops, n, written);
    }
  }

  method Perform(parsers: Parsers, resolver: WellKnownResolver, ghost start: real, ghost ops: seq<Op>, op: Op, ghost n: nat)
      returns (answer: Option<Option<string>>)
    requires Timely(start, ops) && n < |ops| && ops[n] == op
    requires resolver.Valid() && resolver.cache.plain.clock <= Begin(op)
    requires Recorded(parsers, ops, n, resolver.cache.plain.written)
    modifies resolver, resolver.cache
    ensures resolver.Valid() && resolver.cache.plain.clock <= op.now
    ensures Recorded(parsers, ops, n + 1, resolver.cache.plain.written)
    ensures AnsweredRightly(parsers, ops, n, answer)
  {
    hide TtlCache.InStep, TtlCache.KeysOrdered, TtlCache.Holds, ServedRightly, Recorded, Directives, Dictionary, Period;
    ghost var written := resolver.cache.plain.written;
    match op {
      case LookUpOp(server, now) =>
        answer := resolver.LookUp(server, now);
        LookUpServed(parsers, start, ops, n, written);
        RecordedSkip(parsers, ops, n, written);
      case StoreOp(server, response, jitter, at, asked, now) =>
        answer := resolver.Store(parsers, server, response, jitter, at, asked, now);
        RecordedNext(parsers, start, ops, n, written, resolver.cache.plain.written);
    }
  }

  /** Over any run of lookups and stores, in any order and for any servers, every lookup is served from the last
      cached answer of its server or not at all, and never 48 hours or more after that answer was stored. */
  method Serve(parsers: Parsers, order: TtlCache.Order<string, Option<string>>, start: real, ops: seq<Op>)
      returns (answers: seq<Option<Option<string>>>)
    requires TtlCache.KeysOrdered(order) && Timely(start, ops)
    ensures |answers| == |ops|
    ensures forall i | 0 <= i < |ops| :: AnsweredRightly(parsers, ops, i, answers[i])
  {
    var resolver := new WellKnownResolver(order, start);
    hide TtlCache.InStep, TtlCache.KeysOrdered, TtlCache.Holds, AnsweredRightly, Recorded;
    answers := [];
    NothingRecorded(parsers, ops);
    for n := 0 to |ops|
      invariant resolver.Valid() && fresh(resolver) && fresh(resolver.cache)
      invariant n < |ops| ==> resolver.cache.plain.clock <= Begin(ops[n])
      invariant Recorded(parsers, ops, n, resolver.cache.plain.written)
      invariant |answers| == n
      invariant forall i | 0 <= i < n :: AnsweredRightly(parsers, ops, i, answers[i])
    {
      var answer := Perform(parsers, resolver, start, ops, ops[n], n);
      answers := answers + [answer];
    }
  }

  lemma NothingRecorded(parsers: Parsers, ops: seq<Op>)
    ensures Recorded(parsers, ops, 0, map[])
  {
  }

  /** Server names, in the order of their characters, are keys as the cache needs them. */
  lemma NamesAreOrdered(valueLess: (Option<string>, Option<string>) -> bool)
    ensures TtlCache.KeysOrdered(TtlCache.Order((a: string, b: string) => a != b && TextLe(a, b), valueLess))
  {
    hide TextLe;
    var order := TtlCache.Order((a: string, b: string) => a != b && TextLe(a, b), valueLess);
    forall a, b | order.keyLess(a, b)
      ensures !order.keyLess(b, a)
    {
      if TextLe(b, a) { TextLeAntisymmetric(a, b); }
    }
    forall a, b, c | order.keyLess(a, b) && order.keyLess(b, c)
      ensures order.keyLess(a, c)
    {
      TextLeTransitive(a, b, c);
      if a == c { TextLeAntisymmetric(a, b); }
    }
    forall a, b | a != b
      ensures order.keyLess(a, b) || order.keyLess(b, a)
    {
      TextLeTotal(a, b);
    }
  }
}

/** Choosing a server from SRV records by priority and weight. */
module SrvResolver {
  datatype Server = Server(host: string, port: int, priority: int, weight: nat)

  function MinPriority(servers: seq<Server>): (p: int)
    requires servers != []
    ensures (exists s | s in servers :: s.priority == p) && forall s | s in servers :: p <= s.priority
  {
    var last := servers[|servers| - 1];
    if |servers| == 1 then last.priority
    else
      var p := MinPriority(servers[..|servers| - 1]);
      assert servers == servers[..|servers| - 1] + [last];
      if last.priority < p then last.priority else p
  }

  /** No server of the list has a lower priority value. */
  predicate Lowest(servers: seq<Server>, s: Server) {
    forall x | x in servers :: s.priority <= x.priority
  }

  /** The servers of the lowest priority value, in list order. */
  function Candidates(servers: seq<Server>): (e: seq<Server>)
    ensures servers != [] ==> e != []
    ensures forall s :: s in e <==> s in servers && Lowest(servers, s)
  {
    if servers == [] then []
    else
      var p := MinPriority(servers);
      var s :| s in servers && s.priority == p;
      assert s in Eligible(servers, p);
      Eligible(servers, p)
  }

  function Eligible(servers: seq<Server>, p: int): (e: seq<Server>)
    ensures forall s :: s in e <==> s in servers && s.priority == p
  {
    if servers == [] then []
    else
      var e := Eligible(servers[..|servers| - 1], p);
      assert servers == servers[..|servers| - 1] + [servers[|servers| - 1]];
      if servers[|servers| - 1].priority == p then e + [servers[|servers| - 1]] else e
  }

  /** The positions of the servers with that priority, in increasing order. */
  function Positions(servers: seq<Server>, p: int): (at: seq<nat>)
    ensures forall i | 0 <= i < |at| :: at[i] < |servers|
  {
    if servers == [] then []
    else
      var at := Positions(servers[..|servers| - 1], p);
      if servers[|servers| - 1].priority == p then at + [|servers| - 1] else at
  }

  /** The chosen positions are all those with a property, in increasing order, and the list is what stands there. */
  ghost predicate PickedInOrder(servers: seq<Server>, e: seq<Server>, at: seq<nat>, p: int) {
    && |at| == |e| && (forall i | 0 <= i < |at| :: at[i] < |servers| && e[i] == servers[at[i]])
    && (forall i, j | 0 <= i < j < |at| :: at[i] < at[j])
    && (forall k: nat | k < |servers| :: k in at <==> servers[k].priority == p)
  }

  lemma PickedOneMore(servers: seq<Server>, e: seq<Server>, at: seq<nat>, p: int)
    requires servers != [] && PickedInOrder(servers[..|servers| - 1], e, at, p) && servers[|servers| - 1].priority == p
    ensures PickedInOrder(servers, e + [servers[|servers| - 1]], at + [|servers| - 1], p)
  {
    var n: nat := |servers| - 1;
    var more := at + [n];
    assert forall i | 0 <= i < |at| :: at[i] < n;
    forall k: nat | k < |servers|
      ensures k in more <==> servers[k].priority == p
    {
      assert k in more <==> k in at || k == n;
      assert k < n ==> servers[..n][k] == servers[k];
      assert k == n ==> k !in at;
    }
  }

  lemma PickedNoMore(servers: seq<Server>, e: seq<Server>, at: seq<nat>, p: int)
    requires servers != [] && PickedInOrder(servers[..|servers| - 1], e, at, p) && servers[|servers| - 1].priority != p
    ensures PickedInOrder(servers, e, at, p)
  {
    var n: nat := |servers| - 1;
    forall k: nat | k < |servers|
      ensures k in at <==> servers[k].priority == p
    {
      assert k < n ==> servers[..n][k] == servers[k];
    }
  }

  lemma {:induction false} EligibleInOrder(servers: seq<Server>, p: int)
    ensures PickedInOrder(servers, Eligible(servers, p), Positions(servers, p), p)
  {
    if servers != [] {
      var front := servers[..|servers| - 1];
      EligibleInOrder(front, p);
      if servers[|servers| - 1].priority == p {
        PickedOneMore(servers, Eligible(front, p), Positions(front, p), p);
      } else {
        PickedNoMore(servers, Eligible(front, p), Positions(front, p), p);
      }
      hide PickedInOrder;
    }
  }

  /** The candidates are the servers of the least priority value, each as often as it is listed and in list order. */
  lemma CandidatesInOrder(servers: seq<Server>)
    requires servers != []
    ensures exists at, p :: PickedInOrder(servers, Candidates(servers), at, p) && forall s | s in servers :: p <= s.priority
  {
    var p := MinPriority(servers);
    EligibleInOrder(servers, p);
    assert PickedInOrder(servers, Candidates(servers), Positions(servers, p), p);
  }

  /** The weights of the first n servers together. */
  function Sum(servers: seq<Server>, n: nat): nat
    requires n <= |servers|
  {
    if n == 0 then 0 else Sum(servers, n - 1) + servers[n - 1].weight
  }

  lemma {:induction false} SumMonotone(servers: seq<Server>, a: nat, b: nat)
    requires a <= b <= |servers|
    ensures Sum(servers, a) <= Sum(servers, b)
  {
    if a < b { SumMonotone(servers, a, b - 1); }
  }

  /** Position i is the first whose running weight sum reaches the draw. */
  predicate Picks(servers: seq<Server>, draw: nat, i: nat) {
    i < |servers| && draw <= Sum(servers, i + 1) && forall k | 0 < k <= i :: Sum(servers, k) < draw
  }

  datatype Choice = Chosen(host: string, port: int) | EmptyList | EndOfList

  /** `draw` is what random.randint(0, total weight) returned. The error at the end of the list never occurs. */
  method PickServer(servers: seq<Server>, draw: nat) returns (choice: Choice)
    requires draw <= Sum(Candidates(servers), |Candidates(servers)|)
    ensures choice.EmptyList? <==> servers == []
    ensures !choice.EndOfList?
    ensures choice.Chosen? ==>
              exists i: nat :: Picks(Candidates(servers), draw, i)
                          && choice == Chosen(Candidates(servers)[i].host, Candidates(servers)[i].port)
    ensures choice.Chosen? ==> exists s | s in servers :: Lowest(servers, s) && choice == Chosen(s.host, s.port)
  {
    hide Candidates;
    if servers == [] {
      return EmptyList;
    }
    var eligible := EligibleServers(servers);
    var target: int := draw;
    for n := 0 to |eligible|
      invariant target == draw - Sum(eligible, n)
      invariant forall k | 0 < k <= n :: Sum(eligible, k) < draw
    {
      target := target - eligible[n].weight;
      if target <= 0 {
        assert Picks(eligible, draw, n) && eligible[n] in eligible;
        return Chosen(eligible[n].host, eligible[n].port);
      }
    }
    assert false;
    return EndOfList;
  }

  /** The minimum of the priorities, then the servers that have it. */
  method EligibleServers(servers: seq<Server>) returns (eligible: seq<Server>)
    requires servers != []
    ensures eligible == Candidates(servers) && eligible != []
  {
    var low := LowestPriority(servers);
    eligible := [];
    assert Eligible(servers[..0], low) == [];
    for n := 0 to |servers|
      invariant eligible == Eligible(servers[..n], low)
    {
      EligibleNext(servers, low, n);
      if servers[n].priority == low {
        eligible := eligible + [servers[n]];
      }
    }
    assert servers[..|servers|] == servers;
  }

  lemma EligibleNext(servers: seq<Server>, p: int, n: nat)
    requires n < |servers|
    ensures Eligible(servers[..n + 1], p) == Eligible(servers[..n], p) + if servers[n].priority == p then [servers[n]] else []
  {
    assert servers[..n + 1][..n] == servers[..n];
  }

  method LowestPriority(servers: seq<Server>) returns (low: int)
    requires servers != []
    ensures low == MinPriority(servers)
  {
    low := servers[0].priority;
    assert servers[..1] == [servers[0]];
    hide MinPriority;
    FirstPriority(servers[0]);
    for n := 1 to |servers|
      invariant low == MinPriority(servers[..n])
    {
      NextPriority(servers, n);
      if servers[n].priority < low {
        low := servers[n].priority;
      }
    }
    assert servers[..|servers|] == servers;
  }

  lemma FirstPriority(s: Server)
    ensures MinPriority([s]) == s.priority
  {
  }

  lemma NextPriority(servers: seq<Server>, n: nat)
    requires 0 < n < |servers|
    ensures var p := MinPriority(servers[..n]);
            MinPriority(servers[..n + 1]) == if servers[n].priority < p then servers[n].priority else p
  {
    assert servers[..n + 1][..n] == servers[..n];
  }

  /** The draws from 0 to the total weight that pick position i. */
  function DrawsFor(servers: seq<Server>, i: nat): set<nat> {
    set d: nat | d <= Sum(servers, |servers|) && Picks(servers, d, i)
  }

  predicate Between(lo: int, d: int, hi: int) {
    lo < d <= hi
  }

  function Interval(lo: int, hi: int): set<nat>
    requires -1 <= lo
  {
    set d: nat | d <= hi && Between(lo, d, hi)
  }

  lemma {:induction false} IntervalSize(lo: int, hi: int)
    requires -1 <= lo <= hi
    ensures |Interval(lo, hi)| == hi - lo
    decreases hi - lo
  {
    if lo < hi {
      IntervalSize(lo, hi - 1);
      assert Interval(lo, hi) == Interval(lo, hi - 1) + {hi};
    } else {
      assert Interval(lo, hi) == {};
    }
  }

  /** Of the total + 1 equally likely draws, the first eligible server gets one more than its weight and every
      other server exactly its weight. */
  lemma DrawsMatchWeights(servers: seq<Server>, i: nat)
    requires i < |servers|
    ensures |DrawsFor(servers, i)| == servers[i].weight + if i == 0 then 1 else 0
  {
    var lo: int := if i == 0 then -1 else Sum(servers, i);
    var hi := Sum(servers, i + 1);
    SumMonotone(servers, i + 1, |servers|);
    forall k | 0 < k <= i
      ensures Sum(servers, k) <= Sum(servers, i)
    {
      SumMonotone(servers, k, i);
    }
    forall d: nat
      ensures Picks(servers, d, i) <==> Between(lo, d, hi)
    {
    }
    assert DrawsFor(servers, i) == Interval(lo, hi);
    IntervalSize(lo, hi);
  }
}

/** The cache with a lifetime per entry: a dictionary kept in step with a list sorted by expiry. */
module TtlCache {
  import opened Common

  datatype Entry<K, V> = Entry(expiry: real, key: K, value: V)

  /** The `<` of the keys and of the values. */
  datatype Order<-K, -V> = Order(keyLess: (K, K) -> bool, valueLess: (V, V) -> bool)

  /** Keys are strictly and totally ordered; nothing is asked of the values. */
  ghost predicate KeysOrdered<K(!new), V>(order: Order<K, V>) {
    && (forall a, b | order.keyLess(a, b) :: !order.keyLess(b, a))
    && (forall a, b, c | order.keyLess(a, b) && order.keyLess(b, c) :: order.keyLess(a, c))
    && (forall a, b {:trigger order.keyLess(a, b)} | a != b :: order.keyLess(a, b) || order.keyLess(b, a))
  }

  /** The `<` that attrs gives the entries: that of the tuples (expiry, key, value), decided by the first
      component that differs. */
  predicate Less<K(==), V(==)>(order: Order<K, V>, a: Entry<K, V>, b: Entry<K, V>) {
    if a.expiry != b.expiry then a.expiry < b.expiry
    else if a.key != b.key then order.keyLess(a.key, b.key)
    else a.value != b.value && order.valueLess(a.value, b.value)
  }

  /** The order that the keys and expiry times alone give. */
  predicate Before<K, V>(order: Order<K, V>, a: Entry<K, V>, b: Entry<K, V>) {
    a.expiry < b.expiry || (a.expiry == b.expiry && order.keyLess(a.key, b.key))
  }

  predicate Sorted<K, V>(order: Order<K, V>, list: seq<Entry<K, V>>) {
    forall i, j | 0 <= i < j < |list| :: Before(order, list[i], list[j])
  }

  predicate OnePerKey<K(==), V>(list: seq<Entry<K, V>>) {
    forall i, j | 0 <= i < j < |list| :: list[i].key != list[j].key
  }

  // ------------------------------------------------------------ the sorted list

  /** SortedList.add: before the entries at the end that the new one is less than. */
  function Added<K(==, !new), V(==, !new)>(order: Order<K, V>, list: seq<Entry<K, V>>, e: Entry<K, V>): (r: seq<Entry<K, V>>)
    ensures forall x :: x in r <==> x in list || x == e
  {
    if list == [] || !Less(order, e, list[|list| - 1]) then list + [e]
    else
      assert list == list[..|list| - 1] + [list[|list| - 1]];
      Added(order, list[..|list| - 1], e) + [list[|list| - 1]]
  }

  /** bisect_left: the number of entries at the start that are less than e. */
  function Position<K(==), V(==)>(order: Order<K, V>, list: seq<Entry<K, V>>, e: Entry<K, V>): (i: nat)
    ensures i <= |list| && (i < |list| ==> !Less(order, list[i], e))
    ensures forall k | 0 <= k < i :: Less(order, list[k], e)
  {
    if list == [] || !Less(order, list[0], e) then 0 else 1 + Position(order, list[1..], e)
  }

  /** SortedList.remove: the entry at that position; None is its ValueError. */
  function Removed<K(==), V(==)>(order: Order<K, V>, list: seq<Entry<K, V>>, e: Entry<K, V>): Option<seq<Entry<K, V>>> {
    var i := Position(order, list, e);
    if i < |list| && list[i] == e then Some(list[..i] + list[i + 1..]) else None
  }

  /** Entries with different keys compare without their values. */
  lemma LessIsBefore<K(!new), V(!new)>(order: Order<K, V>, a: Entry<K, V>, b: Entry<K, V>)
    requires KeysOrdered(order) && a.key != b.key
    ensures Less(order, a, b) <==> Before(order, a, b)
    ensures Before(order, a, b) <==> !Before(order, b, a)
  {
    assert order.keyLess(a.key, b.key) || order.keyLess(b.key, a.key);
  }

  lemma BeforeTransitive<K(!new), V(!new)>(order: Order<K, V>, a: Entry<K, V>, b: Entry<K, V>, c: Entry<K, V>)
    requires KeysOrdered(order) && Before(order, a, b) && Before(order, b, c)
    ensures Before(order, a, c)
  {
  }

  lemma AppendOk<K(!new), V(!new)>(order: Order<K, V>, list: seq<Entry<K, V>>, e: Entry<K, V>)
    requires Sorted(order, list) && OnePerKey(list) && forall x | x in list :: Before(order, x, e) && x.key != e.key
    ensures Sorted(order, list + [e]) && OnePerKey(list + [e])
  {
    hide Before;
    assert forall i | 0 <= i < |list| :: list[i] in list;
  }

  lemma LastIsLatest<K(!new), V(!new)>(order: Order<K, V>, list: seq<Entry<K, V>>, x: Entry<K, V>)
    requires Sorted(order, list) && OnePerKey(list) && list != [] && x in list[..|list| - 1]
    ensures x in list && Before(order, x, list[|list| - 1]) && x.key != list[|list| - 1].key
  {
    hide Before;
    var i :| 0 <= i < |list| - 1 && list[..|list| - 1][i] == x;
    assert list[i] == x;
  }

  lemma {:induction false} AddedOk<K(!new), V(!new)>(order: Order<K, V>, list: seq<Entry<K, V>>, e: Entry<K, V>)
    requires KeysOrdered(order) && Sorted(order, list) && OnePerKey(list) && forall x | x in list :: x.key != e.key
    ensures Sorted(order, Added(order, list, e)) && OnePerKey(Added(order, list, e))
  {
    hide Before, Less, KeysOrdered;
    if list == [] {
      AppendOk(order, list, e);
    } else {
      var front, last := list[..|list| - 1], list[|list| - 1];
      assert list == front + [last];
      LessIsBefore(order, e, last);
      forall x | x in front
        ensures Before(order, x, last) && x.key != last.key && (Before(order, last, e) ==> Before(order, x, e))
      {
        LastIsLatest(order, list, x);
        if Before(order, last, e) { BeforeTransitive(order, x, last, e); }
      }
      if !Less(order, e, last) {
        LessIsBefore(order, last, e);
        AppendOk(order, list, e);
      } else {
        AddedOk(order, front, e);
        AppendOk(order, Added(order, front, e), last);
      }
    }
  }

  /** Removal finds the entry it is asked for and takes out that one only. */
  lemma RemovedOk<K(!new), V(!new)>(order: Order<K, V>, list: seq<Entry<K, V>>, e: Entry<K, V>)
    requires KeysOrdered(order) && Sorted(order, list) && OnePerKey(list) && e in list
    ensures var r := Removed(order, list, e);
            && r.Some? && Sorted(order, r.value) && OnePerKey(r.value)
            && forall x :: x in r.value <==> x in list && x.key != e.key
  {
    hide Before, Less, KeysOrdered;
    var i :| 0 <= i < |list| && list[i] == e;
    forall k | 0 <= k < i
      ensures Less(order, list[k], e)
    {
      LessIsBefore(order, list[k], e);
    }
    NotLessThanItself(order, e);
    assert Position(order, list, e) == i;
    OneTakenOut(order, list, i);
  }

  lemma NotLessThanItself<K(!new), V(!new)>(order: Order<K, V>, e: Entry<K, V>)
    ensures !Less(order, e, e)
  {
  }

  lemma OneTakenOut<K(!new), V(!new)>(order: Order<K, V>, list: seq<Entry<K, V>>, i: nat)
    requires Sorted(order, list) && OnePerKey(list) && i < |list|
    ensures var r := list[..i] + list[i + 1..];
            && Sorted(order, r) && OnePerKey(r)
            && forall x :: x in r <==> x in list && x.key != list[i].key
  {
    hide Before;
    var r := list[..i] + list[i + 1..];
    assert forall k | 0 <= k < |r| :: r[k] == list[if k < i then k else k + 1];
    forall x
      ensures x in r <==> x in list && x.key != list[i].key
    {
      if x in list && x.key != list[i].key {
        var k :| 0 <= k < |list| && list[k] == x;
        assert r[if k < i then k else k - 1] == x;
      }
    }
  }

  lemma FirstTakenOut<K(!new), V(!new)>(order: Order<K, V>, list: seq<Entry<K, V>>)
    requires Sorted(order, list) && OnePerKey(list) && list != []
    ensures Sorted(order, list[1..]) && OnePerKey(list[1..])
    ensures forall x :: x in list[1..] <==> x in list && x.key != list[0].key
  {
    hide Sorted, OnePerKey;
    OneTakenOut(order, list, 0);
    assert list[..0] + list[1..] == list[1..];
  }

  /** As long as a new key is not in the list, adding it makes no use of how values compare. */
  lemma {:induction false} AddComparesNoValues<K(!new), V(!new)>(order: Order<K, V>, other: Order<K, V>, list: seq<Entry<K, V>>, e: Entry<K, V>)
    requires order.keyLess == other.keyLess && forall x | x in list :: x.key != e.key
    ensures Added(order, list, e) == Added(other, list, e)
  {
    if list != [] {
      assert list[|list| - 1] in list;
      AddComparesNoValues(order, other, list[..|list| - 1], e);
    }
  }

  /** Neither does looking for an entry that is in the list. */
  lemma {:induction false} RemoveComparesNoValues<K(!new), V(!new)>(order: Order<K, V>, other: Order<K, V>, list: seq<Entry<K, V>>, e: Entry<K, V>)
    requires order.keyLess == other.keyLess && forall x | x in list && x.key == e.key :: x == e
    ensures Position(order, list, e) == Position(other, list, e)
    ensures Removed(order, list, e) == Removed(other, list, e)
  {
    if list != [] {
      assert list[0] in list;
      RemoveComparesNoValues(order, other, list[1..], e);
    }
  }

  // ------------------------------------------------------- dictionary and list

  /** Dictionary and list hold the same entries, one per key, in expiry order. */
  ghost predicate InStep<K(!new), V(!new)>(order: Order<K, V>, data: map<K, Entry<K, V>>, list: seq<Entry<K, V>>) {
    && Sorted(order, list) && OnePerKey(list)
    && (forall e :: e in list <==> e.key in data && data[e.key] == e)
    && (forall k | k in data :: data[k].key == k)
  }

  lemma InStepDropFirst<K(!new), V(!new)>(order: Order<K, V>, data: map<K, Entry<K, V>>, list: seq<Entry<K, V>>)
    requires InStep(order, data, list) && list != []
    ensures InStep(order, data - {list[0].key}, list[1..])
    ensures list[0].key in data && data[list[0].key] == list[0]
  {
    hide Sorted, OnePerKey;
    FirstTakenOut(order, list);
    assert list[0] in list;
  }

  lemma InStepRemoved<K(!new), V(!new)>(order: Order<K, V>, data: map<K, Entry<K, V>>, list: seq<Entry<K, V>>, key: K)
    requires KeysOrdered(order) && InStep(order, data, list) && key in data
    ensures Removed(order, list, data[key]).Some?
    ensures InStep(order, data - {key}, Removed(order, list, data[key]).value)
  {
    hide Removed, Before, KeysOrdered, Sorted, OnePerKey;
    RemovedOk(order, list, data[key]);
  }

  lemma InStepAdded<K(!new), V(!new)>(order: Order<K, V>, data: map<K, Entry<K, V>>, list: seq<Entry<K, V>>, e: Entry<K, V>)
    requires KeysOrdered(order) && InStep(order, data, list) && e.key !in data
    ensures InStep(order, data[e.key := e], Added(order, list, e))
  {
    hide Added, Before, KeysOrdered, Sorted, OnePerKey;
    AddedOk(order, list, e);
  }

  lemma AllLater<K(!new), V(!new)>(order: Order<K, V>, data: map<K, Entry<K, V>>, list: seq<Entry<K, V>>, now: real)
    requires InStep(order, data, list) && (list == [] || list[0].expiry > now)
    ensures forall k | k in data :: data[k].expiry > now
  {
    assert forall k | k in data :: data[k] in list;
    assert forall i | 0 < i < |list| :: Before(order, list[0], list[i]);
  }

  /** In every use the cache makes of its list, the order of the values is never asked for. */
  lemma ValuesNeverCompared<K(!new), V(!new)>(order: Order<K, V>, other: Order<K, V>, data: map<K, Entry<K, V>>, list: seq<Entry<K, V>>, e: Entry<K, V>)
    requires order.keyLess == other.keyLess && InStep(order, data, list)
    ensures e.key !in data ==> Added(order, list, e) == Added(other, list, e)
    ensures e.key in data ==> Removed(order, list, data[e.key]) == Removed(other, list, data[e.key])
  {
    hide Added, Removed, Before, Sorted, OnePerKey;
    if e.key in data {
      RemoveComparesNoValues(order, other, list, data[e.key]);
    } else {
      AddComparesNoValues(order, other, list, e);
    }
  }

  // -------------------------------------------------------------- the cache

  /** What the cache stands for: every key's last write that was not popped since, expired or not; the time of
      the last operation that expired entries; and the key, if that operation was a set. */
  datatype Plain<K, V> = Plain(written: map<K, Entry<K, V>>, clock: real, justSet: Option<K>)

  predicate Live<K(==), V>(m: map<K, Entry<K, V>>, key: K, now: real) {
    key in m && m[key].expiry > now
  }

  /** The entries not yet removed: those not due at the last expiring operation, and the one it set. */
  predicate Held<K(==), V>(p: Plain<K, V>, key: K) {
    key in p.written && (p.written[key].expiry > p.clock || p.justSet == Some(key))
  }

  /** The last write of each key, if it has not expired. */
  function Unexpired<K(==), V>(written: map<K, Entry<K, V>>, now: real): map<K, Entry<K, V>> {
    map k | k in written && written[k].expiry > now :: written[k]
  }

  /** The dictionary is exactly the entries held. */
  ghost predicate Holds<K(!new), V>(data: map<K, Entry<K, V>>, p: Plain<K, V>) {
    forall k :: (k in data <==> Held(p, k)) && (k in data ==> data[k] == p.written[k])
  }

  lemma HoldsUnexpired<K(!new), V(!new)>(data: map<K, Entry<K, V>>, p: Plain<K, V>)
    requires Holds(data, p) && p.justSet == None
    ensures data == Unexpired(p.written, p.clock)
  {
    assert forall k :: k in data <==> Held(p, k);
  }

  class TTLCache<K(==, !new), V(==, !new)> {
    const order: Order<K, V>
    var data: map<K, Entry<K, V>>
    var expiryList: seq<Entry<K, V>>
    ghost var plain: Plain<K, V>

    ghost predicate Valid() reads this {
      KeysOrdered(order) && InStep(order, data, expiryList) && Holds(data, plain)
    }

    constructor (order: Order<K, V>, start: real)
      requires KeysOrdered(order)
      ensures Valid() && plain == Plain(map[], start, None) && this.order == order
    {
      this.order := order;
      data, expiryList, plain := map[], [], Plain(map[], start, None);
    }

    /** Removes what is due; the dictionary is then exactly the unexpired last writes. */
    method Expire(now: real)
      requires Valid() && plain.clock <= now
      modifies this
      ensures Valid() && plain == Plain(old(plain).written, now, None)
      ensures data == Unexpired(plain.written, now)
    {
      hide InStep, KeysOrdered;
      ghost var written, all := plain.written, data;
      while expiryList != []
        invariant InStep(order, data, expiryList)
        invariant forall k | k in data :: k in all && data[k] == all[k]
        invariant forall k | k in all && k !in data :: all[k].expiry <= now
        decreases |expiryList|
      {
        var first := expiryList[0];
        if first.expiry - now > 0.0 {
          break;
        }
        InStepDropFirst(order, data, expiryList);
        data := data - {first.key};
        expiryList := expiryList[1..];
      }
      AllLater(order, data, expiryList, now);
      plain := Plain(written, now, None);
      HeldAfterExpiry(all, old(plain), data, now);
      HoldsUnexpired(data, plain);
    }

    method Set(key: K, value: V, ttl: real, asked: real, now: real)
      requires Valid() && plain.clock <= asked <= now
      modifies this
      ensures Valid()
      ensures plain == Plain(old(plain).written[key := Entry(asked + ttl, key, value)], now, Some(key))
      ensures data == Unexpired(old(plain).written, now)[key := Entry(asked + ttl, key, value)]
    {
      hide InStep, KeysOrdered, Added, Removed, Holds;
      var expiry := asked + ttl;
      Expire(now);
      ghost var before := data;
      if key in data {
        InStepRemoved(order, data, expiryList, key);
        var list := Removed(order, expiryList, data[key]).value;
        data, expiryList := data - {key}, list;
      }
      var entry := Entry(expiry, key, value);
      InStepAdded(order, data, expiryList, entry);
      data, expiryList := data[key := entry], Added(order, expiryList, entry);
      HeldAfterSet(before, plain, key, entry);
      assert data == before[key := entry];
      plain := Plain(plain.written[key := entry], now, Some(key));
    }

    /** Succeeds exactly when the last write of the key has not expired. */
    method Get(key: K, now: real) returns (value: Option<V>)
      requires Valid() && plain.clock <= now
      modifies this
      ensures Valid() && plain == Plain(old(plain).written, now, None)
      ensures value == if Live(plain.written, key, now) then Some(plain.written[key].value) else None
      ensures value.Some? <==> key in old(plain).written && old(plain).written[key].expiry > now
    {
      hide InStep, KeysOrdered, Holds;
      Expire(now);
      value := if key in data then Some(data[key].value) else None;
    }

    method GetWithExpiry(key: K, now: real) returns (found: Option<(V, real)>)
      requires Valid() && plain.clock <= now
      modifies this
      ensures Valid() && plain == Plain(old(plain).written, now, None)
      ensures found == if Live(plain.written, key, now) then Some((plain.written[key].value, plain.written[key].expiry)) else None
    {
      hide InStep, KeysOrdered, Holds;
      Expire(now);
      found := if key in data then Some((data[key].value, data[key].expiry)) else None;
    }

    method Pop(key: K, now: real) returns (value: Option<V>)
      requires Valid() && plain.clock <= now
      modifies this
      ensures Valid()
      ensures plain == Plain(if Live(old(plain).written, key, now) then old(plain).written - {key} else old(plain).written, now, None)
      ensures value == if Live(old(plain).written, key, now) then Some(old(plain).written[key].value) else None
    {
      hide InStep, KeysOrdered, Removed, Holds;
      Expire(now);
      if key !in data {
        return None;
      }
      value := Some(data[key].value);
      InStepRemoved(order, data, expiryList, key);
      HeldAfterPop(data, plain, key);
      var list := Removed(order, expiryList, data[key]).value;
      data, expiryList := data - {key}, list;
      plain := plain.(written := plain.written - {key});
    }

    method Len(now: real) returns (n: nat)
      requires Valid() && plain.clock <= now
      modifies this
      ensures Valid() && plain == Plain(old(plain).written, now, None)
      ensures n == |Unexpired(plain.written, now)|
    {
      hide InStep, KeysOrdered, Holds;
      Expire(now);
      n := |data|;
    }

    /** Does not expire first: it reports what is held, due or not. */
    method Contains(key: K) returns (present: bool)
      requires Valid()
      ensures present <==> Held(plain, key)
    {
      present := key in data;
    }
  }

  lemma HeldAfterExpiry<K(!new), V(!new)>(all: map<K, Entry<K, V>>, p: Plain<K, V>, data: map<K, Entry<K, V>>, now: real)
    requires Holds(all, p) && p.clock <= now
    requires forall k | k in data :: k in all && data[k] == all[k] && data[k].expiry > now
    requires forall k | k in all && k !in data :: all[k].expiry <= now
    ensures Holds(data, Plain(p.written, now, None))
  {
    forall k
      ensures (k in data <==> Held(Plain(p.written, now, None), k)) && (k in data ==> data[k] == p.written[k])
    {
      assert k in all <==> Held(p, k);
    }
  }

  lemma HeldAfterSet<K(!new), V(!new)>(data: map<K, Entry<K, V>>, p: Plain<K, V>, key: K, e: Entry<K, V>)
    requires Holds(data, p) && p.justSet == None
    ensures Holds(data[key := e], Plain(p.written[key := e], p.clock, Some(key)))
  {
    var more, q := data[key := e], Plain(p.written[key := e], p.clock, Some(key));
    forall k
      ensures (k in more <==> Held(q, k)) && (k in more ==> more[k] == q.written[k])
    {
      assert k in data <==> Held(p, k);
    }
  }

  lemma HeldAfterPop<K(!new), V(!new)>(data: map<K, Entry<K, V>>, p: Plain<K, V>, key: K)
    requires Holds(data, p)
    ensures Holds(data - {key}, p.(written := p.written - {key}))
  {
    var left, q := data - {key}, p.(written := p.written - {key});
    forall k
      ensures (k in left <==> Held(q, k)) && (k in left ==> left[k] == q.written[k])
    {
      assert k in data <==> Held(p, k);
    }
  }

  // ------------------------------------------------------------ whole runs

  datatype Op<K, V> =
    /** The clock is read once for the expiry and again for the clean-up. */
    | SetOp(key: K, value: V, ttl: real, asked: real, now: real)
    | GetOp(key: K, now: real)
    | GetWithExpiryOp(key: K, now: real)
    | PopOp(key: K, now: real)
    | LenOp(now: real)
    | ContainsOp(key: K, now: real)

  datatype Answer<V> =
    | Done
    | Found(value: Option<V>)
    | FoundWithExpiry(found: Option<(V, real)>)
    | Size(n: nat)
    | Present(present: bool)

  function Begin<K, V>(op: Op<K, V>): real {
    if op.SetOp? then op.asked else op.now
  }

  /** The clock never goes back. */
  predicate Timely<K, V>(start: real, ops: seq<Op<K, V>>) {
    && (forall i | 0 <= i < |ops| :: start <= Begin(ops[i]) <= ops[i].now)
    && (forall i, j | 0 <= i < j < |ops| :: ops[i].now <= Begin(ops[j]))
  }

  /** On a plain map from key to value and expiry: a write replaces, a pop of a live key removes, and nothing
      is ever purged. */
  function PlainStep<K(==), V>(p: Plain<K, V>, op: Op<K, V>): Plain<K, V> {
    match op
    case SetOp(key, value, ttl, asked, now) => Plain(p.written[key := Entry(asked + ttl, key, value)], now, Some(key))
    case PopOp(key, now) => Plain(if Live(p.written, key, now) then p.written - {key} else p.written, now, None)
    case ContainsOp(_, _) => p
    case _ => Plain(p.written, op.now, None)
  }

  function PlainRun<K(==), V>(start: real, ops: seq<Op<K, V>>): Plain<K, V> {
    if ops == [] then Plain(map[], start, None) else PlainStep(PlainRun(start, ops[..|ops| - 1]), ops[|ops| - 1])
  }

  function PlainAnswer<K(==), V>(p: Plain<K, V>, op: Op<K, V>): Answer<V> {
    match op
    case SetOp(_, _, _, _, _) => Done
    case GetWithExpiryOp(key, now) =>
      FoundWithExpiry(if Live(p.written, key, now) then Some((p.written[key].value, p.written[key].expiry)) else None)
    case LenOp(now) => Size(|Unexpired(p.written, now)|)
    case ContainsOp(key, _) => Present(Held(p, key))
    case _ => Found(if Live(p.written, op.key, op.now) then Some(p.written[op.key].value) else None)
  }

  method Perform<K(==, !new), V(==, !new)>(cache: TTLCache<K, V>, op: Op<K, V>) returns (answer: Answer<V>)
    requires cache.Valid() && cache.plain.clock <= Begin(op) <= op.now
    modifies cache
    ensures cache.Valid() && cache.plain == PlainStep(old(cache.plain), op) && cache.plain.clock <= op.now
    ensures answer == PlainAnswer(old(cache.plain), op)
  {
    hide InStep, KeysOrdered, Holds;
    answer := Done;
    match op {
      case SetOp(key, value, ttl, asked, now) => cache.Set(key, value, ttl, asked, now);
      case GetOp(key, now) => var value := cache.Get(key, now); answer := Found(value);
      case GetWithExpiryOp(key, now) => var found := cache.GetWithExpiry(key, now); answer := FoundWithExpiry(found);
      case PopOp(key, now) => var value := cache.Pop(key, now); answer := Found(value);
      case LenOp(now) => var n := cache.Len(now); answer := Size(n);
      case ContainsOp(key, _) => var present := cache.Contains(key); answer := Present(present);
    }
  }

  lemma PlainRunNext<K, V>(start: real, ops: seq<Op<K, V>>, n: nat)
    requires n < |ops|
    ensures PlainRun(start, ops[..n + 1]) == PlainStep(PlainRun(start, ops[..n]), ops[n])
  {
    hide PlainStep;
    assert ops[..n + 1][..n] == ops[..n];
  }

  /** The i-th operation of the run is answered as the plain map answers it. */
  predicate AnsweredAsPlain<K(==), V(==)>(start: real, ops: seq<Op<K, V>>, i: nat, answer: Answer<V>)
    requires i < |ops|
  {
    answer == PlainAnswer(PlainRun(start, ops[..i]), ops[i])
  }

  lemma AsPlain<K, V>(start: real, ops: seq<Op<K, V>>, n: nat, answer: Answer<V>)
    requires n < |ops| && answer == PlainAnswer(PlainRun(start, ops[..n]), ops[n])
    ensures AnsweredAsPlain(start, ops, n, answer)
  {
  }

  /** Any run of the cache answers every operation as the plain map does. */
  method Simulate<K(==, !new), V(==, !new)>(order: Order<K, V>, start: real, ops: seq<Op<K, V>>) returns (answers: seq<Answer<V>>)
    requires KeysOrdered(order) && Timely(start, ops)
    ensures |answers| == |ops|
    ensures forall i | 0 <= i < |ops| :: AnsweredAsPlain(start, ops, i, answers[i])
  {
    assert PlainRun(start, ops[..0]) == Plain(map[], start, None);
    hide InStep, KeysOrdered, Holds, AnsweredAsPlain, PlainStep, PlainRun;
    var cache := new TTLCache<K, V>(order, start);
    answers := [];
    for n := 0 to |ops|
      invariant cache.Valid() && fresh(cache)
      invariant cache.plain == PlainRun(start, ops[..n])
      invariant n < |ops| ==> cache.plain.clock <= Begin(ops[n])
      invariant |answers| == n
      invariant forall i | 0 <= i < n :: AnsweredAsPlain(start, ops, i, answers[i])
    {
      PlainRunNext(start, ops, n);
      var answer := Perform(cache, ops[n]);
      AsPlain(start, ops, n, answer);
      answers := answers + [answer];
    }
  }

  // -------------------------------------------------------------- the last write

  /** No operation since position `start` sets or pops the key. */
  predicate Undisturbed<K(==), V>(ops: seq<Op<K, V>>, start: nat, key: K) {
    forall i | start <= i < |ops| :: !(ops[i].SetOp? && ops[i].key == key) && !(ops[i].PopOp? && ops[i].key == key)
  }

  lemma {:induction false} EntryKept<K(!new), V(!new)>(start: real, ops: seq<Op<K, V>>, j: nat, key: K)
    requires j <= |ops| && Undisturbed(ops, j, key)
    ensures var p, q := PlainRun(start, ops[..j]), PlainRun(start, ops);
            (key in q.written <==> key in p.written) && (key in p.written ==> q.written[key] == p.written[key])
  {
    if j < |ops| {
      var front := ops[..|ops| - 1];
      assert front[..j] == ops[..j];
      EntryKept(start, front, j, key);
    } else {
      assert ops[..j] == ops;
    }
  }

  /** After any run, a key's last set, if the key was not popped since, decides what `get` gives: the value until
      the lifetime, counted from the first clock reading, is over, and nothing from then on. */
  lemma LastSetDecides<K(!new), V(!new)>(start: real, ops: seq<Op<K, V>>, j: nat, now: real)
    requires j < |ops| && ops[j].SetOp? && Undisturbed(ops, j + 1, ops[j].key)
    ensures PlainAnswer(PlainRun(start, ops), GetOp(ops[j].key, now)) ==
            Found(if now < ops[j].asked + ops[j].ttl then Some(ops[j].value) else None)
    ensures PlainAnswer(PlainRun(start, ops), GetWithExpiryOp(ops[j].key, now)) ==
            FoundWithExpiry(if now < ops[j].asked + ops[j].ttl then Some((ops[j].value, ops[j].asked + ops[j].ttl)) else None)
  {
    PlainRunNext(start, ops, j);
    EntryKept(start, ops, j + 1, ops[j].key);
    hide PlainRun;
  }

  /** A key that was never set is never found. */
  lemma {:induction false} NeverSetNeverFound<K(!new), V(!new)>(start: real, ops: seq<Op<K, V>>, key: K, now: real)
    requires forall i | 0 <= i < |ops| :: !(ops[i].SetOp? && ops[i].key == key)
    ensures key !in PlainRun(start, ops).written
    ensures PlainAnswer(PlainRun(start, ops), GetOp(key, now)) == Found(None)
  {
    if ops != [] { NeverSetNeverFound(start, ops[..|ops| - 1], key, now); }
  }

  /** A key that was popped and not set since is not found again. */
  lemma PoppedIsGone<K(!new), V(!new)>(start: real, ops: seq<Op<K, V>>, j: nat, now: real)
    requires j < |ops| && ops[j].PopOp? && Undisturbed(ops, j + 1, ops[j].key) && ops[j].now <= now
    ensures PlainAnswer(PlainRun(start, ops), GetOp(ops[j].key, now)) == Found(None)
  {
    PlainRunNext(start, ops, j);
    EntryKept(start, ops, j + 1, ops[j].key);
    hide PlainRun;
  }

  // ---------------------------------------------------------- `in` and `get`

  /** After any run, `in` and `get` agree about a key at a time exactly when the key's last write is not one
      that fell due since the last expiring operation, nor one that this operation set already due. */
  lemma ContainsAgreesWithGetIff<K, V>(start: real, ops: seq<Op<K, V>>, key: K, now: real)
    requires PlainRun(start, ops).clock <= now
    ensures var p := PlainRun(start, ops);
            (PlainAnswer(p, ContainsOp(key, now)) == Present(PlainAnswer(p, GetOp(key, now)).value.Some?))
            <==> (key in p.written ==> p.written[key].expiry > now
                                       || (p.written[key].expiry <= p.clock && p.justSet != Some(key)))
  {
  }

  /** A run where they differ: an entry with a lifetime of one second is still reported after two. */
  lemma ContainsOutlivesGet<K(!new), V(!new)>(key: K, value: V)
    ensures var ops := [SetOp(key, value, 1.0, 0.0, 0.0), ContainsOp(key, 2.0), GetOp(key, 2.0), ContainsOp(key, 2.0)];
            && Timely(0.0, ops)
            && PlainAnswer(PlainRun(0.0, ops[..1]), ops[1]) == Present(true)
            && PlainAnswer(PlainRun(0.0, ops[..2]), ops[2]) == Found(None)
            && PlainAnswer(PlainRun(0.0, ops[..3]), ops[3]) == Present(false)
  {
    var ops := [SetOp(key, value, 1.0, 0.0, 0.0), ContainsOp(key, 2.0), GetOp(key, 2.0), ContainsOp(key, 2.0)];
    assert ops[..1][..0] == [] && ops[..2][..1] == ops[..1] && ops[..3][..2] == ops[..2];
    var p := Plain(map[key := Entry(1.0, key, value)], 0.0, Some(key));
    assert PlainRun(0.0, ops[..1]) == p;
    assert PlainRun(0.0, ops[..2]) == p;
    assert PlainRun(0.0, ops[..3]) == Plain(p.written, 2.0, None);
  }
}

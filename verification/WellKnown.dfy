/** How long a .well-known answer is cached, and that no cached answer is served for more than 48 hours. */
module WellKnown {
  import opened Common
  import opened Text
  import opened TtlCache

  const WELL_KNOWN_DEFAULT_CACHE_PERIOD: real := 86400.0
  const WELL_KNOWN_DEFAULT_CACHE_PERIOD_JITTER: real := 600.0
  const WELL_KNOWN_INVALID_CACHE_PERIOD: real := 3600.0
  const WELL_KNOWN_MAX_CACHE_PERIOD: real := 172800.0

  /** Library parsing: int(...) and stringToDatetime(...), None where they raise ValueError. */
  datatype Parsers = Parsers(toInt: string -> Option<int>, toDate: string -> Option<int>)

  /** The raw values of the Cache-Control and Expires headers. */
  datatype Headers = Headers(cacheControl: seq<string>, expires: seq<string>)

  datatype Directive = Directive(name: string, value: Option<string>)

  // ---------------------------------------------------------- Cache-Control

  predicate Blank(c: char) {
    c == ' ' || c == '\t' || c == '\n' || c == '\r' || c == 11 as char || c == 12 as char
  }

  function StripLeft(s: string): string {
    if s != [] && Blank(s[0]) then StripLeft(s[1..]) else s
  }

  function StripRight(s: string): string {
    if s != [] && Blank(s[|s| - 1]) then StripRight(s[..|s| - 1]) else s
  }

  function Strip(s: string): string {
    StripRight(StripLeft(s))
  }

  function ToDirective(text: string): Directive {
    var i := Find(text, '=');
    Directive(Lower(Strip(text[..i])), if i == |text| then None else Some(Strip(text[i + 1..])))
  }

  function DirectivesOf(parts: seq<string>): seq<Directive> {
    seq(|parts|, i requires 0 <= i < |parts| => ToDirective(parts[i]))
  }

  /** Every directive of every header value, in order. */
  function Directives(values: seq<string>): seq<Directive> {
    if values == [] then [] else Directives(values[..|values| - 1]) + DirectivesOf(Split(values[|values| - 1], ','))
  }

  /** The dictionary of a list of directives: a later one replaces an earlier one of the same name. */
  ghost predicate IsDictionary(dict: map<string, Option<string>>, ds: seq<Directive>) {
    && (forall i | 0 <= i < |ds| :: ds[i].name in dict)
    && (forall k | k in dict :: exists i | 0 <= i < |ds| :: ds[i] == Directive(k, dict[k]) && Last(ds, i))
  }

  /** No later directive has the same name. */
  predicate Last(ds: seq<Directive>, i: nat)
    requires i < |ds|
  {
    forall j | i < j < |ds| :: ds[j].name != ds[i].name
  }

  lemma DictionaryAdd(dict: map<string, Option<string>>, ds: seq<Directive>, d: Directive)
    requires IsDictionary(dict, ds)
    ensures IsDictionary(dict[d.name := d.value], ds + [d])
  {
    var dict', ds' := dict[d.name := d.value], ds + [d];
    forall k | k in dict'
      ensures exists i | 0 <= i < |ds'| :: ds'[i] == Directive(k, dict'[k]) && Last(ds', i)
    {
      if k == d.name {
        assert ds'[|ds|] == Directive(k, dict'[k]) && Last(ds', |ds|);
      } else {
        var i :| 0 <= i < |ds| && ds[i] == Directive(k, dict[k]) && Last(ds, i);
        assert ds'[i] == ds[i] && Last(ds', i);
      }
    }
  }

  function Dictionary(ds: seq<Directive>): map<string, Option<string>> {
    if ds == [] then map[] else Dictionary(ds[..|ds| - 1])[ds[|ds| - 1].name := ds[|ds| - 1].value]
  }

  lemma {:induction false} DictionaryOk(ds: seq<Directive>)
    ensures IsDictionary(Dictionary(ds), ds)
  {
    hide IsDictionary;
    if ds == [] {
      EmptyDictionary();
    } else {
      DictionaryOk(ds[..|ds| - 1]);
      DictionaryAdd(Dictionary(ds[..|ds| - 1]), ds[..|ds| - 1], ds[|ds| - 1]);
      assert ds[..|ds| - 1] + [ds[|ds| - 1]] == ds;
    }
  }

  lemma DictionaryOneMore(ds: seq<Directive>, d: Directive)
    ensures Dictionary(ds + [d]) == Dictionary(ds)[d.name := d.value]
  {
    assert (ds + [d])[..|ds|] == ds;
  }

  lemma NoDirectives(values: seq<string>)
    ensures Dictionary(Directives(values[..0])) == map[]
  {
  }

  lemma MoreDirectives(values: seq<string>, n: nat)
    requires n < |values|
    ensures Directives(values[..n + 1]) == Directives(values[..n]) + DirectivesOf(Split(values[n], ','))
  {
    hide Split, DirectivesOf;
    assert values[..n + 1][..n] == values[..n];
  }

  lemma PartsTaken(parts: seq<string>, k: nat)
    requires k < |parts|
    ensures DirectivesOf(parts[..k + 1]) == DirectivesOf(parts[..k]) + [ToDirective(parts[k])]
  {
    hide ToDirective;
  }

  /** One header value: its directives are added to the dictionary. */
  method ParseValue(before: map<string, Option<string>>, ghost ds: seq<Directive>, value: string)
      returns (dict: map<string, Option<string>>)
    requires before == Dictionary(ds)
    ensures dict == Dictionary(ds + DirectivesOf(Split(value, ',')))
  {
    hide Dictionary, Split, ToDirective;
    var parts := Split(value, ',');
    dict := before;
    assert ds + DirectivesOf(parts[..0]) == ds;
    hide DirectivesOf;
    for k := 0 to |parts|
      invariant dict == Dictionary(ds + DirectivesOf(parts[..k]))
    {
      var d := ToDirective(parts[k]);
      PartsTaken(parts, k);
      DictionaryOneMore(ds + DirectivesOf(parts[..k]), d);
      assert ds + DirectivesOf(parts[..k]) + [d] == ds + DirectivesOf(parts[..k + 1]);
      dict := dict[d.name := d.value];
    }
    assert parts[..|parts|] == parts;
  }

  method ParseCacheControl(values: seq<string>) returns (dict: map<string, Option<string>>)
    ensures dict == Dictionary(Directives(values))
    ensures IsDictionary(dict, Directives(values))
  {
    hide IsDictionary, Dictionary, Directives, DirectivesOf, Split;
    dict := map[];
    NoDirectives(values);
    for n := 0 to |values|
      invariant dict == Dictionary(Directives(values[..n]))
    {
      MoreDirectives(values, n);
      dict := ParseValue(dict, Directives(values[..n]), values[n]);
    }
    assert values[..|values|] == values;
    DictionaryOk(Directives(values));
  }

  lemma NamesInDictionary(dict: map<string, Option<string>>, ds: seq<Directive>)
    requires IsDictionary(dict, ds)
    ensures forall d | d in ds :: d.name in dict
    ensures forall k | k in dict :: Directive(k, dict[k]) in ds
  {
  }

  lemma EmptyDictionary()
    ensures IsDictionary(map[], [])
  {
  }

  // ------------------------------------------------------------ cache period

  /** The period the headers ask for; None when they say nothing usable. */
  function PeriodFrom(parsers: Parsers, dict: map<string, Option<string>>, expires: seq<string>, now: real): Option<real> {
    if "no-store" in dict then Some(0.0)
    else if "max-age" in dict && dict["max-age"].Some? && parsers.toInt(dict["max-age"].value).Some?
    then Some(parsers.toInt(dict["max-age"].value).value as real)
    else if expires == [] then None
    else match parsers.toDate(expires[|expires| - 1])
         case Some(date) => Some(date as real - now)
         case None => Some(0.0)
  }

  /** What is done with the period asked for: a default with jitter, or a cap of 48 hours. */
  function CachePeriod(asked: Option<real>, jitter: real): (period: real)
    requires jitter <= WELL_KNOWN_DEFAULT_CACHE_PERIOD_JITTER
    ensures period <= WELL_KNOWN_MAX_CACHE_PERIOD
  {
    match asked
    case None => WELL_KNOWN_DEFAULT_CACHE_PERIOD + jitter
    case Some(p) => if p < WELL_KNOWN_MAX_CACHE_PERIOD then p else WELL_KNOWN_MAX_CACHE_PERIOD
  }

  /** A response that raised, one whose server name is not ASCII, or a usable one. */
  datatype Response = Failed | NotAscii | Answered(server: string, headers: Headers)

  /** What a response is answered with, and cached as: no usable .well-known is an answer too. */
  function Result(response: Response): Option<string> {
    if response.Answered? then Some(response.server) else None
  }

  /** For how long a response may be cached; the headers are read at time `at`. */
  function Period(parsers: Parsers, response: Response, jitter: real, at: real): real
    requires jitter <= WELL_KNOWN_DEFAULT_CACHE_PERIOD_JITTER
  {
    match response
    case NotAscii => 0.0
    case Failed => WELL_KNOWN_INVALID_CACHE_PERIOD + jitter
    case Answered(_, headers) =>
      CachePeriod(PeriodFrom(parsers, Dictionary(Directives(headers.cacheControl)), headers.expires, at), jitter)
  }

  /** What every response, header set and jitter gives: at most 48 hours; nothing for no-store; and nothing for
      an Expires date that cannot be read, unless a max-age that can be read takes precedence. */
  lemma PeriodBounds(parsers: Parsers, response: Response, jitter: real, at: real)
    requires 0.0 <= jitter <= WELL_KNOWN_DEFAULT_CACHE_PERIOD_JITTER
    ensures Period(parsers, response, jitter, at) <= WELL_KNOWN_MAX_CACHE_PERIOD
    ensures response.Answered? && (exists d | d in Directives(response.headers.cacheControl) :: d.name == "no-store") ==>
              Period(parsers, response, jitter, at) <= 0.0
    ensures response.Answered? && InvalidExpires(parsers, response.headers)
            && (forall d | d in Directives(response.headers.cacheControl) && d.name == "max-age" ::
                  d.value.None? || parsers.toInt(d.value.value).None?) ==>
              Period(parsers, response, jitter, at) <= 0.0
  {
    hide Directives, Dictionary;
    if response.Answered? {
      var ds := Directives(response.headers.cacheControl);
      DictionaryOk(ds);
      NamesInDictionary(Dictionary(ds), ds);
      hide IsDictionary;
    }
  }

  predicate InvalidExpires(parsers: Parsers, headers: Headers) {
    headers.expires != [] && parsers.toDate(headers.expires[|headers.expires| - 1]).None?
  }

  /** What was fetched and for how long it may be cached; None where the encoding error propagates. */
  method DoGetWellKnown(parsers: Parsers, response: Response, jitter: real, at: real) returns (r: Option<(Option<string>, real)>)
    requires 0.0 <= jitter <= WELL_KNOWN_DEFAULT_CACHE_PERIOD_JITTER
    ensures r.None? <==> response.NotAscii?
    ensures r.Some? ==> r.value == (Result(response), Period(parsers, response, jitter, at))
    ensures r.Some? ==> r.value.1 <= 172800.0
    ensures r.Some? ==> r.value.0 == if response.Answered? then Some(response.server) else None
    ensures response.Failed? ==> r.value.1 == WELL_KNOWN_INVALID_CACHE_PERIOD + jitter
    ensures response.Answered? ==>
              exists dict :: IsDictionary(dict, Directives(response.headers.cacheControl))
                && r.value.1 == CachePeriod(PeriodFrom(parsers, dict, response.headers.expires, at), jitter)
    ensures response.Answered? && (exists d | d in Directives(response.headers.cacheControl) :: d.name == "no-store") ==>
              r.value.1 <= 0.0
    ensures response.Answered? && InvalidExpires(parsers, response.headers)
            && (forall d | d in Directives(response.headers.cacheControl) && d.name == "max-age" ::
                  d.value.None? || parsers.toInt(d.value.value).None?) ==>
              r.value.1 <= 0.0
  {
    PeriodBounds(parsers, response, jitter, at);
    hide Directives, Dictionary, IsDictionary;
    match response
    case NotAscii => r := None;
    case Failed => r := Some((None, WELL_KNOWN_INVALID_CACHE_PERIOD + jitter));
    case Answered(server, headers) =>
      var dict := ParseCacheControl(headers.cacheControl);
      var asked := PeriodFrom(parsers, dict, headers.expires, at);
      r := Some((Some(server), CachePeriod(asked, jitter)));
  }

  // ------------------------------------------------------ what headers mean

  predicate AllBlank(s: string) {
    forall c | c in s :: Blank(c)
  }

  /** Neither end is blank. */
  predicate Trimmed(s: string) {
    s != [] ==> !Blank(s[0]) && !Blank(s[|s| - 1])
  }

  lemma {:induction false} StripLeftOf(left: string, rest: string)
    requires AllBlank(left) && (rest != [] ==> !Blank(rest[0]))
    ensures StripLeft(left + rest) == rest
  {
    if left == [] {
      assert left + rest == rest;
    } else {
      assert left[0] in left;
      assert (left + rest)[1..] == left[1..] + rest;
      StripLeftOf(left[1..], rest);
    }
  }

  lemma {:induction false} StripRightOf(rest: string, right: string)
    requires AllBlank(right) && (rest != [] ==> !Blank(rest[|rest| - 1]))
    ensures StripRight(rest + right) == rest
  {
    if right == [] {
      assert rest + right == rest;
    } else {
      assert right[|right| - 1] in right;
      assert (rest + right)[..|rest + right| - 1] == rest + right[..|right| - 1];
      StripRightOf(rest, right[..|right| - 1]);
    }
  }

  /** Stripping takes off the blanks at both ends and nothing else. */
  lemma StripOf(left: string, core: string, right: string)
    requires AllBlank(left) && Trimmed(core) && AllBlank(right)
    ensures Strip(left + core + right) == core
  {
    if core == [] {
      var all := left + core + right;
      assert AllBlank(all);
      StripLeftOf(all, []);
      assert all + [] == all;
    } else {
      assert left + core + right == left + (core + right);
      StripLeftOf(left, core + right);
      StripRightOf(core, right);
    }
  }

  /** A directive with blanks around its name: the name in lower case, and no value. */
  lemma NameAlone(a: string, name: string, b: string)
    requires AllBlank(a) && Trimmed(name) && AllBlank(b) && '=' !in name
    ensures ToDirective(a + name + b) == Directive(Lower(name), None)
  {
    hide Strip, Lower;
    var text := a + name + b;
    FindNone(text, '=');
    assert text[..|text|] == text;
    StripOf(a, name, b);
  }

  /** With blanks around name and value: the name in lower case, the value as written. */
  lemma NameAndValue(a: string, name: string, b: string, c: string, value: string, d: string)
    requires AllBlank(a) && Trimmed(name) && AllBlank(b) && '=' !in name && AllBlank(c) && Trimmed(value) && AllBlank(d)
    ensures ToDirective((a + name + b) + ['='] + (c + value + d)) == Directive(Lower(name), Some(value))
  {
    hide Strip, Lower;
    var left, right := a + name + b, c + value + d;
    var text := left + ['='] + right;
    FindFirst(left, '=', right);
    assert text[..|left|] == left && text[|left| + 1..] == right;
    StripOf(a, name, b);
    StripOf(c, value, d);
  }

  /** A header with one comma and one equals sign, as servers write it. */
  lemma HeaderExample()
    ensures Directives(["No-Store, Max-Age = 3600"]) == [Directive("no-store", None), Directive("max-age", Some("3600"))]
  {
    hide ToDirective, Split;
    var header, first, second := "No-Store, Max-Age = 3600", "No-Store", " Max-Age = 3600";
    ExampleParts();
    ExampleDirectives();
    assert [header][..0] == [];
    assert DirectivesOf([first, second]) == [ToDirective(first), ToDirective(second)];
    assert Directives([header]) == Directives([]) + DirectivesOf([first, second]);
  }

  lemma ExampleParts()
    ensures Split("No-Store, Max-Age = 3600", ',') == ["No-Store", " Max-Age = 3600"]
  {
    hide Split;
    var first, second := "No-Store", " Max-Age = 3600";
    assert "No-Store, Max-Age = 3600" == first + [','] + second;
    SplitFirst(first, ',', second);
    SplitNone(second, ',');
  }

  lemma ExampleDirectives()
    ensures ToDirective("No-Store") == Directive("no-store", None)
    ensures ToDirective(" Max-Age = 3600") == Directive("max-age", Some("3600"))
  {
    hide ToDirective;
    ExampleName();
    ExampleValue();
  }

  lemma ExampleName()
    ensures ToDirective("No-Store") == Directive("no-store", None)
  {
    hide ToDirective;
    assert Lower("No-Store") == "no-store";
    NameAlone([], "No-Store", []);
    assert [] + "No-Store" + [] == "No-Store";
  }

  lemma ExampleValue()
    ensures ToDirective(" Max-Age = 3600") == Directive("max-age", Some("3600"))
  {
    hide ToDirective, Find;
    assert Lower("Max-Age") == "max-age";
    var name, value, text := "Max-Age", "3600", " Max-Age = 3600";
    hide Lower;
    NameAndValue([' '], name, [' '], [' '], value, []);
    assert [' '] + name + [' '] == " Max-Age ";
    assert [' '] + value + [] == " 3600";
    assert " Max-Age " + ['='] + " 3600" == text;
  }

  /** No directive has the name. */
  predicate Unnamed(headers: Headers, name: string) {
    forall d | d in Directives(headers.cacheControl) :: d.name != name
  }

  lemma UnnamedNotThere(headers: Headers, name: string)
    ensures Unnamed(headers, name) <==> name !in Dictionary(Directives(headers.cacheControl))
  {
    hide Directives, Dictionary;
    var ds := Directives(headers.cacheControl);
    DictionaryOk(ds);
    NamesInDictionary(Dictionary(ds), ds);
  }

  /** A readable max-age, the last one given, decides, up to 48 hours. */
  lemma MaxAgeDecides(parsers: Parsers, server: string, headers: Headers, jitter: real, at: real, i: nat, age: int)
    requires var ds := Directives(headers.cacheControl);
             && i < |ds| && ds[i].name == "max-age" && ds[i].value.Some? && parsers.toInt(ds[i].value.value) == Some(age)
             && forall j | i < j < |ds| :: ds[j].name != "max-age"
    requires Unnamed(headers, "no-store") && jitter <= WELL_KNOWN_DEFAULT_CACHE_PERIOD_JITTER
    ensures Period(parsers, Answered(server, headers), jitter, at) == if age < 172800 then age as real else 172800.0
  {
    hide Directives, Dictionary;
    var ds := Directives(headers.cacheControl);
    UnnamedNotThere(headers, "no-store");
    DictionaryOk(ds);
    var dict := Dictionary(ds);
    assert ds[i].name in dict;
    var k :| 0 <= k < |ds| && ds[k] == Directive("max-age", dict["max-age"]) && Last(ds, k);
    assert k == i;
  }

  /** Without no-store and max-age, a readable Expires decides, up to 48 hours from when it is read. */
  lemma ExpiresDecides(parsers: Parsers, server: string, headers: Headers, jitter: real, at: real, date: int)
    requires Unnamed(headers, "no-store") && Unnamed(headers, "max-age") && jitter <= WELL_KNOWN_DEFAULT_CACHE_PERIOD_JITTER
    requires headers.expires != [] && parsers.toDate(headers.expires[|headers.expires| - 1]) == Some(date)
    ensures Period(parsers, Answered(server, headers), jitter, at) ==
            if date as real - at < 172800.0 then date as real - at else 172800.0
  {
    hide Directives, Dictionary;
    UnnamedNotThere(headers, "no-store");
    UnnamedNotThere(headers, "max-age");
  }

  /** Without any of the three, an answer is kept for a day, and no answer for an hour, plus jitter. */
  lemma DefaultPeriods(parsers: Parsers, server: string, headers: Headers, jitter: real, at: real)
    requires Unnamed(headers, "no-store") && Unnamed(headers, "max-age") && headers.expires == []
    requires jitter <= WELL_KNOWN_DEFAULT_CACHE_PERIOD_JITTER
    ensures Period(parsers, Answered(server, headers), jitter, at) == 86400.0 + jitter
    ensures Period(parsers, Failed, jitter, at) == 3600.0 + jitter
  {
    hide Directives, Dictionary;
    UnnamedNotThere(headers, "no-store");
    UnnamedNotThere(headers, "max-age");
  }

  // ---------------------------------------------------------------- serving

  /** The agent's use of its cache. A fetch is awaited between the miss and the store, so the two halves are
      separate calls with anything in between. */
  class WellKnownResolver {
    const cache: TTLCache<string, Option<string>>
    /** When each cached answer was stored. */
    ghost var storedAt: map<string, real>

    ghost predicate Valid() reads this, cache {
      && cache.Valid()
      && forall k | k in cache.plain.written ::
           && k in storedAt && storedAt[k] <= cache.plain.clock
           && storedAt[k] < cache.plain.written[k].expiry <= storedAt[k] + WELL_KNOWN_MAX_CACHE_PERIOD
    }

    constructor (order: Order<string, Option<string>>, start: real)
      requires KeysOrdered(order)
      ensures Valid() && cache.plain == Plain(map[], start, None) && storedAt == map[] && fresh(cache)
    {
      cache := new TTLCache(order, start);
      storedAt := map[];
    }

    /** An answer from the cache is less than 48 hours old and is the last one stored. */
    method LookUp(server: string, now: real) returns (hit: Option<Option<string>>)
      requires Valid() && cache.plain.clock <= now
      modifies cache
      ensures Valid() && cache.plain == Plain(old(cache.plain).written, now, None)
      ensures hit.Some? ==>
                && server in storedAt && storedAt[server] <= now < storedAt[server] + WELL_KNOWN_MAX_CACHE_PERIOD
                && server in cache.plain.written && hit.value == cache.plain.written[server].value
      ensures hit.Some? <==> Live(cache.plain.written, server, now)
    {
      hide InStep, KeysOrdered, Holds;
      hit := cache.Get(server, now);
    }

    /** After a fetch: stored exactly when the period is positive, which is then at most 48 hours, and dated.
        The headers are read at time `at`, of the reactor's clock; the cache reads its own clock twice. */
    method Store(parsers: Parsers, server: string, response: Response, jitter: real, at: real, asked: real, now: real)
        returns (result: Option<Option<string>>)
      requires Valid() && cache.plain.clock <= asked <= now && 0.0 <= jitter <= WELL_KNOWN_DEFAULT_CACHE_PERIOD_JITTER
      modifies this, cache
      ensures Valid() && old(cache.plain.clock) <= cache.plain.clock <= now
      ensures result == if response.NotAscii? then None else Some(Result(response))
      ensures var period := Period(parsers, response, jitter, at);
              if period > 0.0 then
                && period <= WELL_KNOWN_MAX_CACHE_PERIOD && storedAt == old(storedAt)[server := asked]
                && cache.plain.written == old(cache.plain.written)[server := Entry(asked + period, server, Result(response))]
              else storedAt == old(storedAt) && cache.plain.written == old(cache.plain.written)
      ensures response.Answered? && (exists d | d in Directives(response.headers.cacheControl) :: d.name == "no-store") ==>
                cache.plain.written == old(cache.plain.written)
      ensures response.Answered? && InvalidExpires(parsers, response.headers)
              && (forall d | d in Directives(response.headers.cacheControl) && d.name == "max-age" ::
                    d.value.None? || parsers.toInt(d.value.value).None?) ==>
                cache.plain.written == old(cache.plain.written)
    {
      hide InStep, KeysOrdered, Holds, Directives, Dictionary;
      PeriodBounds(parsers, response, jitter, at);
      var fetched := DoGetWellKnown(parsers, response, jitter, at);
      if fetched.None? {
        return None;
      }
      var (answer, period) := fetched.value;
      result := Some(answer);
      if period > 0.0 {
        cache.Set(server, answer, period, asked, now);
        storedAt := storedAt[server := asked];
      }
    }
  }
}

/** The 6to4 network of an IPv4 network: its text, what the text denotes, and which addresses lie in it. */
module SixToFour {
  import opened Common
  import opened Text

  // ----------------------------------------------------------------- digits

  const DIGITS: string := "0123456789abcdef"

  predicate IsDigit(c: char, base: int) {
    ('0' <= c <= '9' && c as int - '0' as int < base) || ('a' <= c <= 'f' && c as int - 'a' as int + 10 < base)
  }

  function DigitValue(c: char): int {
    if '0' <= c <= '9' then c as int - '0' as int else c as int - 'a' as int + 10
  }

  /** The value of a text of digits; None where a character is not a digit. */
  function Value(s: string, base: nat): Option<nat>
    requires 2 <= base <= 16
  {
    if s == [] then Some(0)
    else
      var front := Value(s[..|s| - 1], base);
      if front.None? || !IsDigit(s[|s| - 1], base) then None
      else Some(front.value * base + DigitValue(s[|s| - 1]))
  }

  lemma ValueAppend(front: string, digit: char, base: nat)
    requires 2 <= base <= 16 && Value(front, base).Some? && IsDigit(digit, base)
    ensures Value(front + [digit], base) == Some(Value(front, base).value * base + DigitValue(digit))
  {
    assert (front + [digit])[..|front|] == front;
  }

  /** Digits without leading zeros; zero itself is one digit. hex(n)[2:] and "%d". */
  function Numeral(n: nat, base: nat): (s: string)
    requires 2 <= base <= 16
    ensures s != [] && forall c | c in s :: IsDigit(c, base)
    decreases n
  {
    if n < base then [DIGITS[n]]
    else
      DivisionDecreases(n, base);
      Numeral(n / base, base) + [DIGITS[n % base]]
  }

  lemma DivisionDecreases(n: nat, base: nat)
    requires 2 <= base <= n
    ensures n / base < n
  {
    var q := n / base;
    Recompose(n, base);
    MulMonotone(base, 2, q);
    assert q * base == base * q;
  }

  lemma DigitReadsBack(d: nat, base: nat)
    requires d < base <= 16
    ensures IsDigit(DIGITS[d], base) && DigitValue(DIGITS[d]) == d
  {
  }

  lemma Recompose(n: nat, base: nat)
    requires base > 0
    ensures (n / base) * base + n % base == n && n % base < base
  {
  }

  /** Reading a numeral gives the number back. */
  lemma {:induction false} NumeralReadsBack(n: nat, base: nat)
    requires 2 <= base <= 16
    ensures Value(Numeral(n, base), base) == Some(n)
    decreases n
  {
    hide IsDigit, DigitValue;
    if n < base {
      DigitReadsBack(n, base);
      assert Value([DIGITS[n]][..0], base) == Some(0);
    } else {
      DivisionDecreases(n, base);
      NumeralReadsBack(n / base, base);
      var front, digit := Numeral(n / base, base), DIGITS[n % base];
      Recompose(n, base);
      DigitReadsBack(n % base, base);
      ValueAppend(front, digit, base);
    }
  }

  function Power(base: nat, k: nat): nat {
    if k == 0 then 1 else base * Power(base, k - 1)
  }

  lemma {:induction false} NumeralLength(n: nat, k: nat)
    requires n < Power(16, k) && k > 0
    ensures |Numeral(n, 16)| <= k
    decreases k
  {
    if n >= 16 {
      DivisionDecreases(n, 16);
      assert k > 1 by { assert Power(16, 0) == 1 && Power(16, 1) == 16 * Power(16, 0); }
      assert n / 16 < Power(16, k - 1);
      NumeralLength(n / 16, k - 1);
    }
  }

  function Zeros(k: nat): (s: string)
    ensures |s| == k && forall c | c in s :: c == '0'
  {
    seq(k, _ => '0')
  }

  lemma {:induction false} ValueOfPadded(k: nat, s: string)
    ensures Value(Zeros(k) + s, 16) == Value(s, 16)
  {
    if s == [] {
      assert Zeros(k) + s == Zeros(k);
      ValueOfZeros(k);
    } else {
      ValueOfPadded(k, s[..|s| - 1]);
      assert (Zeros(k) + s)[..k + |s| - 1] == Zeros(k) + s[..|s| - 1];
    }
  }

  lemma {:induction false} ValueOfZeros(k: nat)
    ensures Value(Zeros(k), 16) == Some(0)
  {
    if k > 0 {
      ValueOfZeros(k - 1);
      assert Zeros(k)[..k - 1] == Zeros(k - 1);
    }
  }

  lemma ValueLast(s: string)
    requires s != [] && Value(s, 16).Some?
    ensures var front := Value(s[..|s| - 1], 16);
            front.Some? && Value(s, 16).value == front.value * 16 + DigitValue(s[|s| - 1]) && 0 <= DigitValue(s[|s| - 1]) < 16
    ensures Value(s[..|s| - 1], 16).Some? && IsDigit(s[|s| - 1], 16)
  {
  }

  lemma PowerLast(k: nat)
    requires k > 0
    ensures Power(16, k) == 16 * Power(16, k - 1)
  {
  }

  lemma Shift(x: nat, p: nat, y: nat, d: nat)
    requires y < p && d < 16
    ensures (x * p + y) * 16 + d == x * (16 * p) + (y * 16 + d)
    ensures y * 16 + d < 16 * p
  {
    assert x * (16 * p) == (x * p) * 16;
  }

  /** Cutting a text of digits in two: the parts are the quotient and the remainder. */
  lemma {:induction false} ValueOfParts(a: string, b: string)
    requires Value(a + b, 16).Some?
    ensures Value(a, 16).Some? && Value(b, 16).Some?
    ensures Value(a + b, 16).value == Value(a, 16).value * Power(16, |b|) + Value(b, 16).value
    ensures Value(b, 16).value < Power(16, |b|)
  {
    if b == [] {
      assert a + b == a;
    } else {
      var front, last := b[..|b| - 1], b[|b| - 1];
      assert (a + b)[..|a + b| - 1] == a + front && (a + b)[|a + b| - 1] == last;
      ValueOfParts(a, front);
      hide Value, Power;
      ValueLast(a + b);
      ValueLast(b);
      assert Power(16, |b|) == 16 * Power(16, |front|) by { PowerLast(|b|); }
      Shift(Value(a, 16).value, Power(16, |front|), Value(front, 16).value, DigitValue(last));
    }
  }

  // --------------------------------------------------------------- the text

  /** The zero-padded hexadecimal text of the first address. */
  function HexNetwork(first: nat): (h: string)
    requires first < Power(16, 8)
    ensures |h| == 8
  {
    NumeralLength(first, 8);
    var h := Numeral(first, 16);
    Zeros(8 - |h|) + h
  }

  function SixToFourText(first: nat, prefix: nat): string
    requires first < Power(16, 8) && prefix <= 32
  {
    var h := HexNetwork(first);
    ("2002" + ":" + h[..4] + ":" + h[4..] + "::") + "/" + Numeral(16 + prefix, 10)
  }

  datatype Network = Network(base: nat, length: nat)

  /** The value of leading 16-bit groups, the rest of the 128 bits being zero. */
  function Groups(parts: seq<string>, k: nat): Option<nat> {
    if parts == [] then Some(0)
    else if k == 0 || parts[0] == [] || |parts[0]| > 4 then None
    else match (Value(parts[0], 16), Groups(parts[1..], k - 1))
         case (Some(v), Some(rest)) => Some(v * Power(65536, k - 1) + rest)
         case _ => None
  }

  /** Reads groups that end in "::", a slash and a prefix length, as RFC 4291, section 2.2, defines them. */
  function ReadNetwork(text: string): Option<Network> {
    var halves := Split(text, '/');
    if |halves| != 2 then None
    else
      var parts := Split(halves[0], ':');
      var n := |parts|;
      if n < 3 || parts[n - 1] != [] || parts[n - 2] != [] || n - 2 > 7 then None
      else match (Groups(parts[..n - 2], 8), Value(halves[1], 10))
           case (Some(base), Some(length)) => if length <= 128 then Some(Network(base, length)) else None
           case _ => None
  }

  lemma PowerFacts()
    ensures Power(16, 4) == 65536 && Power(16, 8) == 4294967296
  {
    assert Power(16, 0) == 1 && Power(16, 1) == 16 && Power(16, 2) == 256 && Power(16, 3) == 4096;
    assert Power(16, 4) == 65536 && Power(16, 5) == 1048576 && Power(16, 6) == 16777216 && Power(16, 7) == 268435456;
  }

  lemma HexParts(first: nat)
    requires first < Power(16, 8)
    ensures var h := HexNetwork(first);
            && ':' !in h[..4] && ':' !in h[4..] && '/' !in h[..4] && '/' !in h[4..]
            && Value(h[..4], 16).Some? && Value(h[4..], 16).Some?
            && first == Value(h[..4], 16).value * 65536 + Value(h[4..], 16).value
  {
    var h := HexNetwork(first);
    NumeralLength(first, 8);
    var digits := Numeral(first, 16);
    NumeralReadsBack(first, 16);
    ValueOfPadded(8 - |digits|, digits);
    assert h == h[..4] + h[4..];
    ValueOfParts(h[..4], h[4..]);
    PowerFacts();
    assert forall c | c in h :: IsDigit(c, 16);
    assert forall c | c in h[..4] :: c in h;
    assert forall c | c in h[4..] :: c in h;
  }

  lemma SplitTail(y: string)
    requires ':' !in y
    ensures Split(y + "::", ':') == [y, "", ""]
  {
    assert y + "::" == y + [':'] + ":" && ":" == "" + [':'] + "";
    SplitFirst(y, ':', ":");
    SplitFirst("", ':', "");
    SplitNone("", ':');
  }

  lemma SplitGroups(a: string, x: string, y: string)
    requires ':' !in a && ':' !in x && ':' !in y
    ensures Split(a + ":" + x + ":" + y + "::", ':') == [a, x, y, "", ""]
  {
    hide Split;
    Regroup(a, x, y, "::");
    SplitFirst(a, ':', x + [':'] + (y + "::"));
    SplitFirst(x, ':', y + "::");
    SplitTail(y);
  }

  lemma Regroup(a: string, x: string, y: string, z: string)
    ensures a + ":" + x + ":" + y + z == a + [':'] + (x + [':'] + (y + z))
  {
  }

  lemma SplitLength(left: string, n: string)
    requires '/' !in left && '/' !in n
    ensures Split(left + "/" + n, '/') == [left, n]
  {
    assert left + "/" + n == left + ['/'] + n;
    SplitFirst(left, '/', n);
    SplitNone(n, '/');
  }

  lemma Value2002()
    ensures Value("2002", 16) == Some(0x2002)
  {
    assert "2002"[..3] == "200" && "200"[..2] == "20" && "20"[..1] == "2" && "2"[..0] == "";
    assert Value("", 16) == Some(0);
    assert Value("2", 16) == Some(2);
    assert Value("20", 16) == Some(32);
    assert Value("200", 16) == Some(512);
  }

  lemma ThreeGroups(a: string, b: string, c: string)
    requires Value(a, 16).Some? && Value(b, 16).Some? && Value(c, 16).Some?
    requires 0 < |a| <= 4 && 0 < |b| <= 4 && 0 < |c| <= 4
    ensures Groups([a, b, c], 8) ==
            Some(Value(a, 16).value * Power(65536, 7) + Value(b, 16).value * Power(65536, 6) + Value(c, 16).value * Power(65536, 5))
  {
    hide Power, Value, Groups;
    GroupsStep(c, [], 6);
    GroupsStep(b, [c], 7);
    GroupsStep(a, [b, c], 8);
    assert [c] + [] == [c] && [b] + [c] == [b, c] && [a] + [b, c] == [a, b, c];
  }

  lemma GroupsStep(group: string, rest: seq<string>, k: nat)
    requires k > 0 && 0 < |group| <= 4 && Value(group, 16).Some?
    ensures Groups([], k) == Some(0)
    ensures Groups(rest, k - 1).Some? ==>
              Groups([group] + rest, k) == Some(Value(group, 16).value * Power(65536, k - 1) + Groups(rest, k - 1).value)
    ensures rest == [] ==> Groups([group] + rest, k) == Some(Value(group, 16).value * Power(65536, k - 1))
  {
    hide Power, Value;
    assert ([group] + rest)[1..] == rest;
    assert Groups([], k - 1) == Some(0);
  }

  /** The text reads back as the network whose base is 0x2002 in the top 16 bits followed by the first IPv4
      address, with 16 more prefix bits. */
  lemma TextReadsBack(first: nat, prefix: nat)
    requires first < Power(16, 8) && prefix <= 32
    ensures ReadNetwork(SixToFourText(first, prefix)) ==
            Some(Network(0x2002 * Power(65536, 7) + first * Power(65536, 5), 16 + prefix))
  {
    hide Power, Value, Groups, Split, Numeral, IsDigit, HexNetwork;
    var h, n := HexNetwork(first), Numeral(16 + prefix, 10);
    HexParts(first);
    NumeralReadsBack(16 + prefix, 10);
    NoSlash(n);
    SplitGroups("2002", h[..4], h[4..]);
    var left := "2002" + ":" + h[..4] + ":" + h[4..] + "::";
    assert '/' !in left;
    SplitLength(left, n);
    var parts := ["2002", h[..4], h[4..], "", ""];
    assert parts[..3] == ["2002", h[..4], h[4..]];
    Value2002();
    ThreeGroups("2002", h[..4], h[4..]);
    BaseOf(first, Value(h[..4], 16).value, Value(h[4..], 16).value);
  }

  lemma NoSlash(n: string)
    requires forall c | c in n :: IsDigit(c, 10)
    ensures '/' !in n
  {
  }

  lemma BaseOf(first: nat, x: nat, y: nat)
    requires first == x * 65536 + y
    ensures x * Power(65536, 6) + y * Power(65536, 5) == first * Power(65536, 5)
  {
    var p := Power(65536, 5);
    assert Power(65536, 6) == 65536 * p;
    assert x * (65536 * p) + y * p == (x * 65536 + y) * p;
  }

  // ------------------------------------------------------------- membership

  /** The first `length` of `width` bits agree. */
  predicate InNetwork(address: nat, base: nat, length: nat, width: nat)
    requires length <= width
  {
    PowerPositive(2, width - length);
    address / Power(2, width - length) == base / Power(2, width - length)
  }

  lemma {:induction false} PowerPositive(base: nat, k: nat)
    requires base > 0
    ensures Power(base, k) > 0
  {
    if k > 0 {
      PowerPositive(base, k - 1);
      assert base * Power(base, k - 1) > 0;
    }
  }

  lemma {:induction false} PowerAdd(base: nat, a: nat, b: nat)
    ensures Power(base, a + b) == Power(base, a) * Power(base, b)
  {
    if a == 0 {
      assert Power(base, 0) == 1;
    } else {
      PowerAdd(base, a - 1, b);
      var x, y := Power(base, a - 1), Power(base, b);
      assert base * (x * y) == (base * x) * y;
    }
  }

  lemma TwoToTheSixteenth()
    ensures Power(2, 16) == 65536
  {
    assert Power(2, 4) == 16 by { assert Power(2, 0) == 1 && Power(2, 1) == 2 && Power(2, 2) == 4 && Power(2, 3) == 8; }
    PowerAdd(2, 4, 4);
    PowerAdd(2, 8, 8);
  }

  lemma {:induction false} PowersOf65536(k: nat)
    ensures Power(65536, k) == Power(2, 16 * k)
  {
    if k > 0 {
      PowersOf65536(k - 1);
      TwoToTheSixteenth();
      PowerAdd(2, 16, 16 * (k - 1));
    }
  }

  lemma DivideTwice(x: nat, a: nat, b: nat)
    requires a > 0 && b > 0
    ensures a * b > 0 && x / (a * b) == (x / a) / b
  {
    assert a * b > 0;
    var q, r := x / (a * b), x % (a * b);
    Recompose(x, a * b);
    assert q * (a * b) == (q * b) * a;
    AddMultiple(q * b, r, a);
    AddMultiple(q, r / a, b);
    BoundedQuotient(r, a, b);
  }

  lemma AddMultiple(k: nat, v: nat, m: nat)
    requires m > 0
    ensures (k * m + v) / m == k + v / m
  {
    Recompose(v, m);
    var q, r := v / m, v % m;
    assert k * m + v == (k + q) * m + r;
    UniqueQuotient(k * m + v, m, k + q, r);
  }

  lemma UniqueQuotient(x: nat, m: nat, q: nat, r: nat)
    requires m > 0 && x == q * m + r && r < m
    ensures x / m == q
  {
    Recompose(x, m);
    var q' := x / m;
    if q' > q {
      MulMonotone(q', q + 1, m);
    } else if q' < q {
      MulMonotone(q, q' + 1, m);
    }
  }

  lemma LessCancel(x: nat, y: nat, m: nat)
    requires x * m < y * m
    ensures x < y
  {
    if x >= y { MulMonotone(x, y, m); }
  }

  lemma MulMonotone(x: nat, y: nat, m: nat)
    requires x >= y
    ensures x * m >= y * m
  {
    assert x * m == y * m + (x - y) * m;
  }

  lemma BoundedQuotient(r: nat, a: nat, b: nat)
    requires a > 0 && b > 0 && r < a * b
    ensures r / a < b && (r / a) / b == 0
  {
    Recompose(r, a);
    var q := r / a;
    assert q * a < b * a;
    LessCancel(q, b, a);
    UniqueQuotient(q, b, 0, q);
  }

  lemma SplitEqual(t: nat, a: nat, u: nat, b: nat, p: nat)
    requires a < p && b < p
    ensures t * p + a == u * p + b <==> t == u && a == b
  {
    if t * p + a == u * p + b {
      UniqueQuotient(t * p + a, p, t, a);
      UniqueQuotient(t * p + a, p, u, b);
    }
  }

  /** Numbers cut at w = p * m: equal after dropping log m bits exactly when the high parts are equal and the
      low parts are equal after dropping log m bits. */
  lemma QuotientsAgree(t: nat, v: nat, u: nat, f: nat, p: nat, m: nat)
    requires m > 0 && p > 0 && v < p * m && f < p * m
    ensures (t * (p * m) + v) / m == (u * (p * m) + f) / m <==> t == u && v / m == f / m
  {
    assert t * (p * m) == (t * p) * m && u * (p * m) == (u * p) * m;
    AddMultiple(t * p, v, m);
    AddMultiple(u * p, f, m);
    assert p * m == m * p;
    BoundedQuotient(v, m, p);
    BoundedQuotient(f, m, p);
    SplitEqual(t, v / m, u, f / m, p);
  }

  function TopSixteenBits(address: nat): nat {
    PowerPositive(2, 112);
    address / Power(2, 112)
  }

  /** The 32 bits after the top 16. */
  function EmbeddedAddress(address: nat): nat {
    PowerPositive(2, 80);
    PowerPositive(2, 32);
    (address / Power(2, 80)) % Power(2, 32)
  }

  /** The membership equation with the powers named: l = 2^80, w = 2^32 = p * m. */
  lemma EmbeddingArithmetic(address: nat, first: nat, l: nat, m: nat, p: nat, w: nat)
    requires l > 0 && m > 0 && p > 0 && w == p * m && first < w
    ensures l * m > 0 && l * w > 0
    ensures address / (l * m) == (0x2002 * (l * w) + first * l) / (l * m) <==>
            (address / (l * w) == 0x2002 && ((address / l) % w) / m == first / m)
  {
    var x := address / l;
    DivideTwice(address, l, m);
    DivideTwice(address, l, w);
    BaseQuotient(first, l, m, w);
    Recompose(x, w);
    QuotientsAgree(x / w, x % w, 0x2002, first, p, m);
  }

  /** An IPv6 address lies in the 6to4 network exactly when its top 16 bits are 0x2002 and its next 32 bits lie
      in the IPv4 network. */
  lemma MembersAreEmbedded(address: nat, first: nat, prefix: nat)
    requires first < Power(2, 32) && prefix <= 32
    ensures InNetwork(address, 0x2002 * Power(65536, 7) + first * Power(65536, 5), 16 + prefix, 128) <==>
            (TopSixteenBits(address) == 0x2002 && InNetwork(EmbeddedAddress(address), first, prefix, 32))
  {
    hide Power;
    PowerPositive(2, 80);
    PowerPositive(2, 32 - prefix);
    PowerPositive(2, prefix);
    PowersOf65536(7);
    PowersOf65536(5);
    PowerAdd(2, prefix, 32 - prefix);
    PowerAdd(2, 80, 32);
    PowerAdd(2, 80, 32 - prefix);
    EmbeddingArithmetic(address, first, Power(2, 80), Power(2, 32 - prefix), Power(2, prefix), Power(2, 32));
  }

  lemma BaseQuotient(first: nat, l: nat, m: nat, w: nat)
    requires l > 0 && m > 0
    ensures l * m > 0 && (0x2002 * (l * w) + first * l) / (l * m) == (0x2002 * w + first) / m
  {
    var y := 0x2002 * w + first;
    assert 0x2002 * (l * w) + first * l == y * l + 0;
    DivideTwice(y * l, l, m);
    AddMultiple(y, 0, l);
  }

  /** What the built text denotes, for every IPv4 network and every IPv6 address. */
  lemma TextDenotesEmbedding(first: nat, prefix: nat, address: nat)
    requires first < Power(16, 8) && prefix <= 32
    ensures ReadNetwork(SixToFourText(first, prefix)).Some?
    ensures var network := ReadNetwork(SixToFourText(first, prefix)).value;
            && network.length == 16 + prefix
            && (InNetwork(address, network.base, 16 + prefix, 128) <==>
                (TopSixteenBits(address) == 0x2002 && InNetwork(EmbeddedAddress(address), first, prefix, 32)))
  {
    hide InNetwork, ReadNetwork, SixToFourText, Power;
    TextReadsBack(first, prefix);
    PowerFacts();
    TwoToTheSixteenth();
    PowerAdd(2, 16, 16);
    MembersAreEmbedded(address, first, prefix);
  }

  /** The text for 10.0.0.0/8. */
  lemma PrivateNetwork()
    ensures Power(16, 8) == 0x1_0000_0000
    ensures SixToFourText(0x0a00_0000, 8) == "2002:0a00:0000::/24"
  {
    assert Power(16, 8) == 0x1_0000_0000;
    NumeralDigits();
    assert Zeros(1) == "0";
    var h := HexNetwork(0x0a00_0000);
    assert h == "0" + "a000000" && h[..4] == "0a00" && h[4..] == "0000";
  }

  lemma NumeralDigits()
    ensures Numeral(0x0a00_0000, 16) == "a000000" && Numeral(24, 10) == "24"
  {
    assert Numeral(0xa, 16) == "a";
    assert Numeral(0xa0, 16) == "a0";
    assert Numeral(0xa00, 16) == "a00";
    assert Numeral(0xa000, 16) == "a000";
    assert Numeral(0xa0000, 16) == "a0000";
    assert Numeral(0xa00000, 16) == "a00000";
    assert Numeral(0xa000000, 16) == "a000000";
    assert Numeral(2, 10) == "2";
    assert Numeral(24, 10) == "24";
  }
}

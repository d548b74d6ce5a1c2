/** Text handling shared by the header parser and the network reader. */
module Text {
  /** The position of a character, or the length of the text. */
  function Find(s: string, c: char): (i: nat)
    ensures i <= |s| && c !in s[..i] && (i < |s| ==> s[i] == c)
  {
    if s == [] || s[0] == c then 0
    else
      var i := 1 + Find(s[1..], c);
      assert s[..i] == [s[0]] + s[1..][..i - 1];
      i
  }

  /** str.split on one character. */
  function Split(s: string, c: char): (parts: seq<string>)
    ensures parts != [] && forall p | p in parts :: c !in p
    decreases |s|
  {
    var i := Find(s, c);
    if i == |s| then [s] else [s[..i]] + Split(s[i + 1..], c)
  }

  lemma {:induction false} FindFirst(a: string, c: char, b: string)
    requires c !in a
    ensures Find(a + [c] + b, c) == |a|
  {
    if a != [] {
      assert (a + [c] + b)[1..] == a[1..] + [c] + b;
      FindFirst(a[1..], c, b);
    }
  }

  lemma {:induction false} FindNone(a: string, c: char)
    requires c !in a
    ensures Find(a, c) == |a|
  {
    if a != [] { FindNone(a[1..], c); }
  }

  /** Splitting takes off the text before the first separator. */
  lemma SplitFirst(a: string, c: char, b: string)
    requires c !in a
    ensures Split(a + [c] + b, c) == [a] + Split(b, c)
  {
    FindFirst(a, c, b);
    var s := a + [c] + b;
    assert s[..|a|] == a && s[|a| + 1..] == b;
  }

  lemma SplitNone(a: string, c: char)
    requires c !in a
    ensures Split(a, c) == [a]
  {
    FindNone(a, c);
  }

  /** The order of bytes: of SQLite's BINARY collation, and of Python's byte strings. */
  predicate TextLe(a: string, b: string) {
    a == [] || (b != [] && (a[0] < b[0] || (a[0] == b[0] && TextLe(a[1..], b[1..]))))
  }

  lemma {:induction false} TextLeAntisymmetric(a: string, b: string)
    requires TextLe(a, b) && TextLe(b, a)
    ensures a == b
  {
    if a != [] {
      TextLeAntisymmetric(a[1..], b[1..]);
      assert a == [a[0]] + a[1..] && b == [b[0]] + b[1..];
    }
  }

  lemma {:induction false} TextLeReflexive(a: string)
    ensures TextLe(a, a)
  {
    if a != [] { TextLeReflexive(a[1..]); }
  }

  lemma {:induction false} TextLeTransitive(a: string, b: string, c: string)
    requires TextLe(a, b) && TextLe(b, c)
    ensures TextLe(a, c)
  {
    if a != [] && a[0] == b[0] == c[0] { TextLeTransitive(a[1..], b[1..], c[1..]); }
  }

  lemma {:induction false} TextLeTotal(a: string, b: string)
    ensures TextLe(a, b) || TextLe(b, a)
  {
    if a != [] && b != [] { TextLeTotal(a[1..], b[1..]); }
  }
}

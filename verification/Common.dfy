/** Vocabulary shared by the whole model: identifiers, normalisation and the lookup hash. */
module Common {

  datatype Option<+T> = None | Some(value: T)

  type Server = string

  /** A third-party identifier: an email address or a phone number. */
  datatype Threepid = Threepid(medium: string, address: string)

  /** The library functions the code relies on: `str.casefold` and SHA-256 with URL-safe base64. */
  datatype Library = Library(casefold: string -> string, hash: string -> string)

  const EMAIL: string := "email"

  /** SQLite's `lower`, which changes ASCII letters only. */
  function LowerChar(c: char): char {
    if 'A' <= c <= 'Z' then (c as int + 32) as char else c
  }

  function Lower(s: string): string {
    seq(|s|, i requires 0 <= i < |s| => LowerChar(s[i]))
  }

  lemma LowerIdempotent(s: string)
    ensures Lower(Lower(s)) == Lower(s)
  {
  }

  /** The same character, or the two cases of one ASCII letter. */
  predicate SameLetter(a: char, b: char) {
    || a == b
    || ('A' <= a <= 'Z' && b as int == a as int + 32)
    || ('A' <= b <= 'Z' && a as int == b as int + 32)
  }

  /** Texts that differ at most in the case of ASCII letters. */
  predicate CaseVariant(a: string, b: string) {
    |a| == |b| && forall i | 0 <= i < |a| :: SameLetter(a[i], b[i])
  }

  /** lower(a) = lower(b) holds of these texts and of no others. */
  lemma LowerEqualIff(a: string, b: string)
    ensures Lower(a) == Lower(b) <==> CaseVariant(a, b)
  {
    if Lower(a) == Lower(b) {
      assert |Lower(a)| == |Lower(b)|;
      forall i | 0 <= i < |a|
        ensures SameLetter(a[i], b[i])
      {
        assert Lower(a)[i] == Lower(b)[i];
      }
    }
    if CaseVariant(a, b) {
      assert forall i | 0 <= i < |a| :: LowerChar(a[i]) == LowerChar(b[i]);
    }
  }

  /** What the proofs use about case folding: folding twice is folding once, and a folded text
      has no upper-case ASCII letter left. */
  ghost predicate ValidLibrary(lib: Library) {
    forall a: string :: lib.casefold(lib.casefold(a)) == lib.casefold(a) && Lower(lib.casefold(a)) == lib.casefold(a)
  }

  function Normalise(lib: Library, tp: Threepid): Threepid {
    if tp.medium == EMAIL then Threepid(tp.medium, lib.casefold(tp.address)) else tp
  }

  /** The text that is hashed: address, medium and pepper, separated by spaces. */
  function LookupHash(lib: Library, tp: Threepid, pepper: string): string {
    lib.hash(tp.address + " " + tp.medium + " " + pepper)
  }
}

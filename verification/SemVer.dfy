/** Precedence of versions: section 11 of Semantic Versioning 2.0.0, as `semver.lt` decides it. */
module SemVer {

  datatype Identifier = Numeric(value: nat) | Alphanumeric(text: string)

  /** The build metadata takes no part in the precedence. */
  datatype Version = Version(major: nat, minor: nat, patch: nat, prerelease: seq<Identifier>, build: string)

  /** Comparisons return a negative number, zero or a positive number. */
  type Comparer<!T> = (T, T) -> int

  function CompareChars(a: char, b: char): int {
    a as int - b as int
  }

  /** First difference decides; a proper prefix comes first. */
  function Lexicographic<T>(compare: Comparer<T>, a: seq<T>, b: seq<T>): int {
    if a == [] && b == [] then 0
    else if a == [] then -1
    else if b == [] then 1
    else if compare(a[0], b[0]) != 0 then compare(a[0], b[0])
    else Lexicographic(compare, a[1..], b[1..])
  }

  function CompareIdentifiers(a: Identifier, b: Identifier): int {
    match (a, b)
    case (Numeric(m), Numeric(n)) => m - n
    case (Numeric(_), Alphanumeric(_)) => -1
    case (Alphanumeric(_), Numeric(_)) => 1
    case (Alphanumeric(s), Alphanumeric(t)) => Lexicographic(CompareChars, s, t)
  }

  /** A version without a pre-release comes after every one with it. */
  function ComparePrereleases(a: seq<Identifier>, b: seq<Identifier>): int {
    if a == [] && b == [] then 0
    else if a == [] then 1
    else if b == [] then -1
    else Lexicographic(CompareIdentifiers, a, b)
  }

  function Compare(a: Version, b: Version): int {
    if a.major != b.major then a.major - b.major
    else if a.minor != b.minor then a.minor - b.minor
    else if a.patch != b.patch then a.patch - b.patch
    else ComparePrereleases(a.prerelease, b.prerelease)
  }

  predicate Lt(a: Version, b: Version) {
    Compare(a, b) < 0
  }

  // ---------------------------------------------------------------- a total preorder

  /** Swapping the arguments flips the sign, and "not after" is transitive. */
  ghost predicate Ordering<T(!new)>(compare: Comparer<T>) {
    && (forall a, b :: compare(a, b) < 0 <==> compare(b, a) > 0)
    && (forall a, b, c :: compare(a, b) <= 0 && compare(b, c) <= 0 ==> compare(a, c) <= 0)
  }

  lemma {:induction false} LexicographicFlips<T(!new)>(compare: Comparer<T>, a: seq<T>, b: seq<T>)
    requires Ordering(compare)
    ensures Lexicographic(compare, a, b) < 0 <==> Lexicographic(compare, b, a) > 0
  {
    if a != [] && b != [] {
      assert compare(a[0], b[0]) < 0 <==> compare(b[0], a[0]) > 0;
      assert compare(b[0], a[0]) < 0 <==> compare(a[0], b[0]) > 0;
      LexicographicFlips(compare, a[1..], b[1..]);
    }
  }

  lemma {:induction false} LexicographicTransitive<T(!new)>(compare: Comparer<T>, a: seq<T>, b: seq<T>, c: seq<T>)
    requires Ordering(compare)
    requires Lexicographic(compare, a, b) <= 0 && Lexicographic(compare, b, c) <= 0
    ensures Lexicographic(compare, a, c) <= 0
  {
    if a != [] && b != [] && c != [] {
      var x, y, z := a[0], b[0], c[0];
      assert compare(x, y) <= 0 && compare(y, z) <= 0;
      assert compare(x, z) <= 0;
      if compare(x, z) == 0 {
        assert !(compare(z, x) < 0) && !(compare(z, x) > 0);
        assert compare(z, y) <= 0 && compare(y, x) <= 0;
        assert compare(x, y) == 0 && compare(y, z) == 0;
        LexicographicTransitive(compare, a[1..], b[1..], c[1..]);
      }
    }
  }

  lemma IdentifiersOrdered()
    ensures Ordering(CompareIdentifiers)
  {
    forall a, b
      ensures CompareIdentifiers(a, b) < 0 <==> CompareIdentifiers(b, a) > 0
    {
      if a.Alphanumeric? && b.Alphanumeric? { LexicographicFlips(CompareChars, a.text, b.text); }
    }
    forall a, b, c | CompareIdentifiers(a, b) <= 0 && CompareIdentifiers(b, c) <= 0
      ensures CompareIdentifiers(a, c) <= 0
    {
      if a.Alphanumeric? && b.Alphanumeric? && c.Alphanumeric? {
        LexicographicTransitive(CompareChars, a.text, b.text, c.text);
      }
    }
  }

  /** Precedence is a total preorder on versions: the sign flips with the arguments. */
  lemma PrecedenceFlips(a: Version, b: Version)
    ensures Lt(a, b) <==> Compare(b, a) > 0
    ensures Compare(a, b) == 0 <==> !Lt(a, b) && !Lt(b, a)
  {
    IdentifiersOrdered();
    LexicographicFlips(CompareIdentifiers, a.prerelease, b.prerelease);
    LexicographicFlips(CompareIdentifiers, b.prerelease, a.prerelease);
  }

  /** Precedence is a total preorder on versions: "not after" is transitive. */
  lemma PrecedenceTransitive(a: Version, b: Version, c: Version)
    requires !Lt(b, a) && !Lt(c, b)
    ensures !Lt(c, a)
  {
    PrecedenceFlips(a, b);
    PrecedenceFlips(b, a);
    PrecedenceFlips(b, c);
    PrecedenceFlips(c, b);
    PrecedenceFlips(a, c);
    PrecedenceFlips(c, a);
    IdentifiersOrdered();
    if a.prerelease != [] && b.prerelease != [] && c.prerelease != [] {
      if Lexicographic(CompareIdentifiers, a.prerelease, b.prerelease) <= 0
         && Lexicographic(CompareIdentifiers, b.prerelease, c.prerelease) <= 0 {
        LexicographicTransitive(CompareIdentifiers, a.prerelease, b.prerelease, c.prerelease);
      }
    }
  }

  // ---------------------------------------------------------------- what section 11 says

  /** The sequences differ first at k, where a has the lesser element or ends. */
  ghost predicate DiffersAt<T(!new)>(less: (T, T) -> bool, a: seq<T>, b: seq<T>, k: nat) {
    && k <= |a| && k < |b| && a[..k] == b[..k]
    && (k < |a| ==> less(a[k], b[k]))
  }

  ghost predicate Before<T(!new)>(less: (T, T) -> bool, a: seq<T>, b: seq<T>) {
    exists k :: DiffersAt(less, a, b, k)
  }

  predicate CharBefore(c: char, d: char) {
    c < d
  }

  /** Item 4: numbers by value, texts character by character, and a number before a text. */
  ghost predicate IdentifierBefore(a: Identifier, b: Identifier) {
    || (a.Numeric? && b.Numeric? && a.value < b.value)
    || (a.Numeric? && b.Alphanumeric?)
    || (a.Alphanumeric? && b.Alphanumeric? && Before(CharBefore, a.text, b.text))
  }

  /** Items 2 to 4: the first difference of the numbers decides; of equal ones a pre-release comes
      before the release, and two pre-releases are compared identifier by identifier. */
  ghost predicate Precedes(a: Version, b: Version) {
    || a.major < b.major
    || (a.major == b.major && a.minor < b.minor)
    || (a.major == b.major && a.minor == b.minor && a.patch < b.patch)
    || (a.major == b.major && a.minor == b.minor && a.patch == b.patch
        && a.prerelease != []
        && (b.prerelease == [] || Before(IdentifierBefore, a.prerelease, b.prerelease)))
  }

  /** The comparison is negative exactly on the lesser, and zero only on the same. */
  ghost predicate Compares<T(!new)>(compare: Comparer<T>, less: (T, T) -> bool) {
    forall a, b :: (compare(a, b) < 0 <==> less(a, b)) && (compare(a, b) == 0 <==> a == b)
  }

  lemma {:induction false} LexicographicIsBefore<T(!new)>(compare: Comparer<T>, less: (T, T) -> bool,
                                                              a: seq<T>, b: seq<T>)
    requires Compares(compare, less)
    ensures Lexicographic(compare, a, b) < 0 <==> Before(less, a, b)
    ensures Lexicographic(compare, a, b) == 0 <==> a == b
  {
    if a == [] {
      assert b != [] ==> DiffersAt(less, a, b, 0);
    } else if b != [] {
      assert compare(a[0], b[0]) < 0 <==> less(a[0], b[0]);
      assert compare(a[0], b[0]) == 0 <==> a[0] == b[0];
      if a[0] == b[0] {
        LexicographicIsBefore(compare, less, a[1..], b[1..]);
        BeforeInTail(compare, less, a, b);
        assert a == [a[0]] + a[1..] && b == [b[0]] + b[1..];
      } else {
        assert less(a[0], b[0]) ==> DiffersAt(less, a, b, 0);
        assert Before(less, a, b) ==> DiffersAt(less, a, b, 0) by {
          if k: nat :| DiffersAt(less, a, b, k) { assert k > 0 ==> a[..k][0] == b[..k][0]; }
        }
      }
    }
  }

  lemma BeforeInTail<T(!new)>(compare: Comparer<T>, less: (T, T) -> bool, a: seq<T>, b: seq<T>)
    requires Compares(compare, less) && a != [] && b != [] && a[0] == b[0]
    ensures Before(less, a, b) <==> Before(less, a[1..], b[1..])
  {
    assert compare(a[0], b[0]) == 0;
    if k: nat :| DiffersAt(less, a, b, k) {
      assert k > 0;
      assert a[1..][..k - 1] == a[..k][1..] && b[1..][..k - 1] == b[..k][1..];
      assert DiffersAt(less, a[1..], b[1..], k - 1);
    }
    if k: nat :| DiffersAt(less, a[1..], b[1..], k) {
      assert a[..k + 1] == [a[0]] + a[1..][..k] && b[..k + 1] == [b[0]] + b[1..][..k];
      assert DiffersAt(less, a, b, k + 1);
    }
  }

  lemma IdentifiersCompare()
    ensures Compares(CompareIdentifiers, IdentifierBefore)
  {
    forall a, b
      ensures CompareIdentifiers(a, b) < 0 <==> IdentifierBefore(a, b)
      ensures CompareIdentifiers(a, b) == 0 <==> a == b
    {
      if a.Alphanumeric? && b.Alphanumeric? {
        LexicographicIsBefore(CompareChars, CharBefore, a.text, b.text);
      }
    }
  }

  predicate SameButBuild(a: Version, b: Version) {
    a.(build := "") == b.(build := "")
  }

  /** The comparison puts one version before the other exactly when section 11 does, and takes them
      for the same exactly when they differ in their build metadata at most. */
  lemma ComparisonIsPrecedence(a: Version, b: Version)
    ensures Lt(a, b) <==> Precedes(a, b)
    ensures Compare(a, b) == 0 <==> SameButBuild(a, b)
  {
    IdentifiersCompare();
    LexicographicIsBefore(CompareIdentifiers, IdentifierBefore, a.prerelease, b.prerelease);
  }
}

/**
 * The version comparator behind the update notice, against the precedence rules of Semantic
 * Versioning 2.0.0, section 11. Alphanumeric identifiers are collated by a given order.
 */
module Versions {
  import opened Wrappers

  datatype Version = Version(major: nat, minor: nat, patch: nat, prerelease: seq<string>)

  /** Negative, zero or positive as the first string collates before, with or after the second. */
  type Collation = (string, string) -> int

  /** A total order that only equal strings tie in. */
  ghost predicate TotalOrder(collate: Collation) {
    && (forall a, b :: collate(a, b) == 0 <==> a == b)
    && (forall a, b :: collate(a, b) < 0 <==> collate(b, a) > 0)
    && (forall a, b, c :: collate(a, b) < 0 && collate(b, c) < 0 ==> collate(a, c) < 0)
  }

  function Sign(x: int): int {
    if x < 0 then -1 else if x > 0 then 1 else 0
  }

  function Order(x: nat, y: nat): int {
    if x < y then -1 else if x > y then 1 else 0
  }

  // ---- Identifiers ------------------------------------------------------------------------

  predicate Digit(c: char) {
    '0' <= c <= '9'
  }

  predicate Numeric(s: string) {
    s != "" && forall i :: 0 <= i < |s| ==> Digit(s[i])
  }

  function Value(s: string): nat
    requires forall i :: 0 <= i < |s| ==> Digit(s[i])
  {
    if s == "" then 0
    else
      assert Digit(s[|s| - 1]);
      10 * Value(s[..|s| - 1]) + (s[|s| - 1] - '0') as nat
  }

  function NumericIdentifier(s: string): Option<nat> {
    if Numeric(s) then Some(Value(s)) else None
  }

  /** Numeric identifiers by value, below all others, which the given order collates. */
  function CompareIdentifiers(collate: Collation, a: string, b: string): int {
    match (NumericIdentifier(a), NumericIdentifier(b))
    case (Some(x), Some(y)) => Order(x, y)
    case (Some(_), None) => -1
    case (None, Some(_)) => 1
    case (None, None) => Sign(collate(a, b))
  }

  // ---- The precedence the standard defines -----------------------------------------------------

  /** From left to right, and when all that both have are equal the shorter is lower. */
  function ComparePrerelease(collate: Collation, a: seq<string>, b: seq<string>): int {
    if a == [] && b == [] then 0
    else if a == [] then -1
    else if b == [] then 1
    else
      var first := CompareIdentifiers(collate, a[0], b[0]);
      if first != 0 then first else ComparePrerelease(collate, a[1..], b[1..])
  }

  /** Major, minor and patch decide first; then a prerelease is below its release. */
  function Precedence(collate: Collation, a: Version, b: Version): int {
    if a.major != b.major then Order(a.major, b.major)
    else if a.minor != b.minor then Order(a.minor, b.minor)
    else if a.patch != b.patch then Order(a.patch, b.patch)
    else if a.prerelease == [] && b.prerelease == [] then 0
    else if a.prerelease == [] then 1
    else if b.prerelease == [] then -1
    else ComparePrerelease(collate, a.prerelease, b.prerelease)
  }

  // ---- The comparator ----------------------------------------------------------------------------

  /** Whether the first identifiers to differ as text nevertheless compare equal. */
  predicate TiedFirst(collate: Collation, a: seq<string>, b: seq<string>) {
    a != [] && b != [] &&
    if a[0] == b[0] then TiedFirst(collate, a[1..], b[1..]) else CompareIdentifiers(collate, a[0], b[0]) == 0
  }

  function Core(v: Version): (r: seq<nat>)
    ensures |r| == 3
  {
    [v.major, v.minor, v.patch]
  }

  predicate SameCore(a: Version, b: Version) {
    Core(a) == Core(b)
  }

  /** Whether the comparator stops at two identifiers that differ as text and compare equal. */
  predicate StopsShort(collate: Collation, a: Version, b: Version) {
    SameCore(a, b) && TiedFirst(collate, a.prerelease, b.prerelease)
  }

  /**
   * What the comparator's sign means: the standard's precedence, except that two identifiers
   * that differ as text and compare equal end the comparison, whatever follows them.
   */
  function Compared(collate: Collation, a: Version, b: Version): int {
    if StopsShort(collate, a, b) then 0 else Precedence(collate, a, b)
  }

  /** Compares two versions as parsed; one that did not parse compares equal to anything. */
  method CompareVersions(collate: Collation, left: Option<Version>, right: Option<Version>) returns (r: int)
    requires forall a :: collate(a, a) == 0
    ensures left.None? || right.None? ==> r == 0
    ensures left.Some? && right.Some? ==>
              Sign(r) == Compared(collate, left.value, right.value)
  {
    if left.None? || right.None? {
      return 0;
    }
    var a, b := left.value, right.value;
    var index := 0;
    while index < 3
      invariant 0 <= index <= 3
      invariant forall k :: 0 <= k < index ==> Core(a)[k] == Core(b)[k]
    {
      var difference := (Core(a)[index] as int) - Core(b)[index];
      if difference != 0 {
        assert index > 0 ==> Core(a)[0] == Core(b)[0];
        assert index > 1 ==> Core(a)[1] == Core(b)[1];
        return Sign(difference);
      }
      index := index + 1;
    }
    assert SameCore(a, b);
    if a.prerelease == [] || b.prerelease == [] {
      return if |a.prerelease| == |b.prerelease| then 0 else if a.prerelease == [] then 1 else -1;
    }
    r := CompareParts(collate, a.prerelease, b.prerelease);
  }

  method CompareParts(collate: Collation, a: seq<string>, b: seq<string>) returns (r: int)
    requires forall x :: collate(x, x) == 0
    ensures Sign(r) == if TiedFirst(collate, a, b) then 0 else ComparePrerelease(collate, a, b)
  {
    var length := if |a| > |b| then |a| else |b|;
    var index := 0;
    while index < length
      invariant 0 <= index <= length && index <= |a| && index <= |b|
      invariant TiedFirst(collate, a, b) == TiedFirst(collate, a[index..], b[index..])
      invariant ComparePrerelease(collate, a, b) == ComparePrerelease(collate, a[index..], b[index..])
    {
      if index >= |a| || index >= |b| {
        return if index >= |a| then -1 else 1;
      }
      assert a[index..][1..] == a[index + 1..] && b[index..][1..] == b[index + 1..];
      if a[index] != b[index] {
        var x, y := NumericIdentifier(a[index]), NumericIdentifier(b[index]);
        if x.Some? && y.Some? {
          return Order(x.value, y.value);
        }
        if x.Some? {
          return -1;
        }
        if y.Some? {
          return 1;
        }
        return collate(a[index], b[index]);
      }
      index := index + 1;
    }
    return 0;
  }

  // ---- Numbers without leading zeros ---------------------------------------------------------------

  /** A numeric identifier as the standard requires it: no leading zero. */
  predicate Canonical(s: string) {
    Numeric(s) ==> |s| == 1 || s[0] != '0'
  }

  predicate WellFormed(v: Version) {
    forall i :: 0 <= i < |v.prerelease| ==> Canonical(v.prerelease[i])
  }

  lemma {:induction false} LeadingDigitCounts(s: string)
    requires Numeric(s) && s[0] != '0'
    ensures Value(s) > 0
  {
    if |s| > 1 {
      LeadingDigitCounts(s[..|s| - 1]);
    }
  }

  /** Two canonical numerals of one value are one numeral. */
  lemma {:induction false} OneNumeral(a: string, b: string)
    requires Numeric(a) && Numeric(b) && Canonical(a) && Canonical(b) && Value(a) == Value(b)
    ensures a == b
  {
    var p, q := a[..|a| - 1], b[..|b| - 1];
    assert a == p + [a[|a| - 1]] && b == q + [b[|b| - 1]];
    assert a[|a| - 1] == b[|b| - 1] && Value(p) == Value(q);
    assert forall i :: 0 <= i < |p| ==> p[i] == a[i] && Digit(p[i]);
    assert forall i :: 0 <= i < |q| ==> q[i] == b[i] && Digit(q[i]);
    if p == "" && q != "" {
      LeadingDigitCounts(q);
    } else if p != "" && q == "" {
      LeadingDigitCounts(p);
    } else if p != "" {
      OneNumeral(p, q);
    }
  }

  lemma {:induction false} NeverTied(collate: Collation, a: seq<string>, b: seq<string>)
    requires TotalOrder(collate)
    requires forall i :: 0 <= i < |a| ==> Canonical(a[i])
    requires forall i :: 0 <= i < |b| ==> Canonical(b[i])
    ensures !TiedFirst(collate, a, b)
  {
    if a != [] && b != [] {
      if a[0] == b[0] {
        NeverTied(collate, a[1..], b[1..]);
      } else if NumericIdentifier(a[0]).Some? && NumericIdentifier(a[0]) == NumericIdentifier(b[0]) {
        OneNumeral(a[0], b[0]);
      }
    }
  }

  /** On versions without leading zeros the comparator is the standard's precedence under its own collation. */
  lemma MatchesTheStandard(collate: Collation, a: Version, b: Version)
    requires TotalOrder(collate) && WellFormed(a) && WellFormed(b)
    ensures Compared(collate, a, b) == Precedence(collate, a, b)
  {
    NeverTied(collate, a.prerelease, b.prerelease);
  }

  // ---- The standard's own order of identifiers -------------------------------------------------------

  /** Text in ASCII order: by the first character that differs, and a proper prefix first. */
  function Ascii(a: string, b: string): int {
    if a == "" && b == "" then 0
    else if a == "" then -1
    else if b == "" then 1
    else if a[0] != b[0] then (if a[0] < b[0] then -1 else 1)
    else Ascii(a[1..], b[1..])
  }

  predicate Alphanumeric(c: char) {
    Digit(c) || 'a' <= c <= 'z' || 'A' <= c <= 'Z' || c == '-'
  }

  /** An identifier the standard allows. */
  predicate Identifier(s: string) {
    s != "" && Canonical(s) && forall i :: 0 <= i < |s| ==> Alphanumeric(s[i])
  }

  predicate Standard(v: Version) {
    forall i :: 0 <= i < |v.prerelease| ==> Identifier(v.prerelease[i])
  }

  ghost predicate CollatesLikeAscii(collate: Collation) {
    forall a, b :: Identifier(a) && Identifier(b) && !Numeric(a) && !Numeric(b) ==> Sign(collate(a, b)) == Ascii(a, b)
  }

  lemma {:induction false} AsciiTies(a: string, b: string)
    ensures Sign(Ascii(a, b)) == Ascii(a, b)
    ensures Ascii(a, b) == 0 <==> a == b
  {
    if a != "" && b != "" && a[0] == b[0] {
      AsciiTies(a[1..], b[1..]);
      assert a == [a[0]] + a[1..] && b == [b[0]] + b[1..];
    }
  }

  lemma IdentifiersAgree(collate: Collation, a: string, b: string)
    requires CollatesLikeAscii(collate) && Identifier(a) && Identifier(b)
    ensures CompareIdentifiers(collate, a, b) == CompareIdentifiers(Ascii, a, b)
    ensures CompareIdentifiers(collate, a, b) == 0 <==> a == b
  {
    AsciiTies(a, b);
    if Numeric(a) && Numeric(b) && Value(a) == Value(b) {
      OneNumeral(a, b);
    }
  }

  lemma {:induction false} PrereleasesAgree(collate: Collation, a: seq<string>, b: seq<string>)
    requires CollatesLikeAscii(collate)
    requires forall i :: 0 <= i < |a| ==> Identifier(a[i])
    requires forall i :: 0 <= i < |b| ==> Identifier(b[i])
    ensures !TiedFirst(collate, a, b)
    ensures ComparePrerelease(collate, a, b) == ComparePrerelease(Ascii, a, b)
  {
    if a != [] && b != [] {
      IdentifiersAgree(collate, a[0], b[0]);
      PrereleasesAgree(collate, a[1..], b[1..]);
    }
  }

  /** A version whose prerelease is one identifier compares as that identifier does. */
  lemma SingleIdentifiers(collate: Collation, a: string, b: string)
    requires !Numeric(a) && !Numeric(b)
    ensures var x, y := Version(1, 0, 0, [a]), Version(1, 0, 0, [b]);
            Precedence(collate, x, y) == Compared(collate, x, y) == Sign(collate(a, b))
  {
    var p, q := [a], [b];
    assert p[1..] == [] && q[1..] == [];
    assert CompareIdentifiers(collate, p[0], q[0]) == Sign(collate(a, b));
    assert ComparePrerelease(collate, p[1..], q[1..]) == 0;
    assert ComparePrerelease(collate, p, q) == Sign(collate(a, b));
    assert !TiedFirst(collate, p[1..], q[1..]);
    assert TiedFirst(collate, p, q) ==> Sign(collate(a, b)) == 0;
  }

  /**
   * The comparator is section 11 of the standard, with the ASCII order it asks for, exactly when the
   * collation orders the standard's own identifiers as ASCII does.
   */
  lemma StandardExactlyWhen(collate: Collation)
    ensures (forall a, b :: Standard(a) && Standard(b) ==> Compared(collate, a, b) == Precedence(Ascii, a, b))
            <==> CollatesLikeAscii(collate)
  {
    if CollatesLikeAscii(collate) {
      forall a, b | Standard(a) && Standard(b)
        ensures Compared(collate, a, b) == Precedence(Ascii, a, b)
      {
        PrereleasesAgree(collate, a.prerelease, b.prerelease);
      }
    } else {
      var a, b :| Identifier(a) && Identifier(b) && !Numeric(a) && !Numeric(b) && Sign(collate(a, b)) != Ascii(a, b);
      DisagreementShows(collate, a, b);
      var x, y := Version(1, 0, 0, [a]), Version(1, 0, 0, [b]);
      assert Standard(x) && Standard(y) && Compared(collate, x, y) != Precedence(Ascii, x, y);
    }
  }

  /** Two identifiers collated in another order than ASCII's make two versions that compare wrongly. */
  lemma DisagreementShows(collate: Collation, a: string, b: string)
    requires !Numeric(a) && !Numeric(b) && Sign(collate(a, b)) != Ascii(a, b)
    ensures var x, y := Version(1, 0, 0, [a]), Version(1, 0, 0, [b]);
            Compared(collate, x, y) != Precedence(Ascii, x, y)
  {
    AsciiTies(a, b);
    SingleIdentifiers(collate, a, b);
    SingleIdentifiers(Ascii, a, b);
  }

  /** A locale that puts small letters first however they are cased ranks 1.0.0-Beta above 1.0.0-alpha. */
  lemma LocaleDisagrees(collate: Collation)
    requires collate("Beta", "alpha") > 0
    ensures var beta, alpha := Version(1, 0, 0, ["Beta"]), Version(1, 0, 0, ["alpha"]);
            && Standard(beta) && Standard(alpha)
            && Compared(collate, beta, alpha) == 1 && Precedence(Ascii, beta, alpha) == -1
  {
    assert !Digit("Beta"[0]) && !Digit("alpha"[0]);
    SingleIdentifiers(collate, "Beta", "alpha");
    SingleIdentifiers(Ascii, "Beta", "alpha");
  }

  // ---- Order -------------------------------------------------------------------------------------------

  lemma IdentifiersTurn(collate: Collation, a: string, b: string)
    requires TotalOrder(collate)
    ensures CompareIdentifiers(collate, a, b) == -CompareIdentifiers(collate, b, a)
  {
  }

  lemma IdentifiersChain(collate: Collation, a: string, b: string, c: string)
    requires TotalOrder(collate)
    requires CompareIdentifiers(collate, a, b) <= 0 && CompareIdentifiers(collate, b, c) <= 0
    ensures CompareIdentifiers(collate, a, c) <= 0
    ensures CompareIdentifiers(collate, a, c) == 0 <==>
            CompareIdentifiers(collate, a, b) == 0 && CompareIdentifiers(collate, b, c) == 0
  {
    if NumericIdentifier(a).None? && NumericIdentifier(b).None? && NumericIdentifier(c).None? {
      assert collate(a, b) == 0 ==> a == b;
      assert collate(b, c) == 0 ==> b == c;
      assert collate(a, b) < 0 && collate(b, c) < 0 ==> collate(a, c) < 0;
    }
  }

  lemma {:induction false} PrereleaseTurns(collate: Collation, a: seq<string>, b: seq<string>)
    requires TotalOrder(collate)
    ensures ComparePrerelease(collate, a, b) == -ComparePrerelease(collate, b, a)
  {
    if a != [] && b != [] {
      IdentifiersTurn(collate, a[0], b[0]);
      PrereleaseTurns(collate, a[1..], b[1..]);
    }
  }

  lemma {:induction false} PrereleaseChains(collate: Collation, a: seq<string>, b: seq<string>, c: seq<string>)
    requires TotalOrder(collate)
    requires ComparePrerelease(collate, a, b) <= 0 && ComparePrerelease(collate, b, c) <= 0
    ensures ComparePrerelease(collate, a, c) <= 0
    ensures ComparePrerelease(collate, a, c) == 0 <==>
            ComparePrerelease(collate, a, b) == 0 && ComparePrerelease(collate, b, c) == 0
  {
    if a != [] && b != [] && c != [] {
      IdentifiersChain(collate, a[0], b[0], c[0]);
      if CompareIdentifiers(collate, a[0], b[0]) == 0 && CompareIdentifiers(collate, b[0], c[0]) == 0 {
        PrereleaseChains(collate, a[1..], b[1..], c[1..]);
      }
    }
  }

  /** Turning the arguments round turns the sign round. */
  lemma Antisymmetric(collate: Collation, a: Version, b: Version)
    requires TotalOrder(collate) && WellFormed(a) && WellFormed(b)
    ensures Compared(collate, a, b) == -Compared(collate, b, a)
  {
    MatchesTheStandard(collate, a, b);
    MatchesTheStandard(collate, b, a);
    PrereleaseTurns(collate, a.prerelease, b.prerelease);
  }

  /** Not above is transitive, and the ends are level only if both steps were. */
  lemma Transitive(collate: Collation, a: Version, b: Version, c: Version)
    requires TotalOrder(collate) && WellFormed(a) && WellFormed(b) && WellFormed(c)
    requires Compared(collate, a, b) <= 0 && Compared(collate, b, c) <= 0
    ensures Compared(collate, a, c) <= 0
    ensures Compared(collate, a, c) == 0 <==> Compared(collate, a, b) == 0 && Compared(collate, b, c) == 0
  {
    MatchesTheStandard(collate, a, b);
    MatchesTheStandard(collate, b, c);
    MatchesTheStandard(collate, a, c);
    if a.prerelease != [] && b.prerelease != [] && c.prerelease != []
       && ComparePrerelease(collate, a.prerelease, b.prerelease) <= 0
       && ComparePrerelease(collate, b.prerelease, c.prerelease) <= 0
    {
      PrereleaseChains(collate, a.prerelease, b.prerelease, c.prerelease);
    }
  }

  lemma {:induction false} LevelIsEqual(collate: Collation, a: seq<string>, b: seq<string>)
    requires TotalOrder(collate)
    requires forall i :: 0 <= i < |a| ==> Canonical(a[i])
    requires forall i :: 0 <= i < |b| ==> Canonical(b[i])
    ensures ComparePrerelease(collate, a, b) == 0 <==> a == b
  {
    if a != [] && b != [] {
      if CompareIdentifiers(collate, a[0], b[0]) == 0 && NumericIdentifier(a[0]).Some? {
        OneNumeral(a[0], b[0]);
      }
      LevelIsEqual(collate, a[1..], b[1..]);
      assert a == [a[0]] + a[1..] && b == [b[0]] + b[1..];
    }
  }

  /** Only a version and itself compare equal. */
  lemma EqualOnlyToItself(collate: Collation, a: Version, b: Version)
    requires TotalOrder(collate) && WellFormed(a) && WellFormed(b)
    ensures Compared(collate, a, b) == 0 <==> a == b
  {
    MatchesTheStandard(collate, a, b);
    LevelIsEqual(collate, a.prerelease, b.prerelease);
  }

  /**
   * With a leading zero the comparator is no order: 1.0.0-01.a and 1.0.0-1.b compare equal,
   * as do 1.0.0-1.b and 1.0.0-01.c, though the first is below the last.
   */
  lemma LeadingZeroTies(collate: Collation)
    requires TotalOrder(collate) && collate("a", "c") < 0
    ensures var a, b, c := Version(1, 0, 0, ["01", "a"]), Version(1, 0, 0, ["1", "b"]), Version(1, 0, 0, ["01", "c"]);
            Compared(collate, a, b) == 0 && Compared(collate, b, c) == 0 && Compared(collate, a, c) == -1
  {
    var a, c := ["01", "a"], ["01", "c"];
    assert Value("1") == 1 && Value("01"[..1]) == 0 && Value("01") == 1;
    assert a[1..] == ["a"] && c[1..] == ["c"];
    assert !Numeric("a") && !Numeric("c") by {
      assert !Digit("a"[0]) && !Digit("c"[0]);
    }
    assert CompareIdentifiers(collate, "a", "c") == -1;
    assert ComparePrerelease(collate, ["a"], ["c"]) == -1;
    assert CompareIdentifiers(collate, "01", "01") == 0;
  }

  // ---- Section 11, rule by rule ------------------------------------------------------------------------

  /** Where two lists of identifiers first differ. */
  predicate DifferAt(a: seq<string>, b: seq<string>, k: nat) {
    && k <= |a| && k <= |b| && a[..k] == b[..k]
    && (k < |a| && k < |b| ==> a[k] != b[k])
  }

  lemma {:induction false} FirstDifference(collate: Collation, a: seq<string>, b: seq<string>, k: nat)
    requires TotalOrder(collate) && DifferAt(a, b, k) && k < |b|
    requires forall i :: 0 <= i < |a| ==> Canonical(a[i])
    requires forall i :: 0 <= i < |b| ==> Canonical(b[i])
    ensures ComparePrerelease(collate, a, b) == if k == |a| then -1 else CompareIdentifiers(collate, a[k], b[k])
  {
    if k > 0 {
      assert a[0] == a[..k][0] == b[..k][0] == b[0];
      assert a[1..][..k - 1] == a[..k][1..] && b[1..][..k - 1] == b[..k][1..];
      FirstDifference(collate, a[1..], b[1..], k - 1);
    } else if a != [] && NumericIdentifier(a[0]).Some? && NumericIdentifier(a[0]) == NumericIdentifier(b[0]) {
      OneNumeral(a[0], b[0]);
    }
  }

  /** 11.2 and 11.3: major, then minor, then patch, and then a prerelease is below its release. */
  lemma CoreDecides(collate: Collation, a: Version, b: Version)
    ensures a.major < b.major ==> Compared(collate, a, b) == -1
    ensures a.major == b.major && a.minor < b.minor ==> Compared(collate, a, b) == -1
    ensures a.major == b.major && a.minor == b.minor && a.patch < b.patch ==> Compared(collate, a, b) == -1
    ensures a == b.(prerelease := a.prerelease) && a.prerelease != [] && b.prerelease == [] ==>
              Compared(collate, a, b) == -1
  {
    assert SameCore(a, b) ==> Core(a)[0] == Core(b)[0] && Core(a)[1] == Core(b)[1] && Core(a)[2] == Core(b)[2];
  }

  /**
   * 11.4: of two prereleases the first identifiers that differ decide. Numbers go by their value and
   * below words, words by the collation, and where one list begins the other the shorter is lower.
   */
  lemma PrereleaseDecides(collate: Collation, a: Version, b: Version, k: nat)
    requires TotalOrder(collate) && WellFormed(a) && WellFormed(b)
    requires a == b.(prerelease := a.prerelease)
    requires a.prerelease != [] && k < |b.prerelease| && DifferAt(a.prerelease, b.prerelease, k)
    ensures k == |a.prerelease| ==> Compared(collate, a, b) == -1
    ensures k < |a.prerelease| ==>
              var x, y := a.prerelease[k], b.prerelease[k];
              && (Numeric(x) && Numeric(y) ==> (Compared(collate, a, b) < 0 <==> NumeralBelow(x, y))
                                               && Compared(collate, a, b) != 0)
              && (Numeric(x) && !Numeric(y) ==> Compared(collate, a, b) == -1)
              && (!Numeric(x) && !Numeric(y) ==> (Compared(collate, a, b) < 0 <==> collate(x, y) < 0))
  {
    FirstDifference(collate, a.prerelease, b.prerelease, k);
    MatchesTheStandard(collate, a, b);
    if k < |a.prerelease| && Numeric(a.prerelease[k]) && Numeric(b.prerelease[k]) {
      NumeralsByValue(a.prerelease[k], b.prerelease[k]);
      if Value(a.prerelease[k]) == Value(b.prerelease[k]) {
        OneNumeral(a.prerelease[k], b.prerelease[k]);
      }
    }
  }

  /** Numerals without leading zeros: the longer is greater, and of one length the first digit to differ decides. */
  predicate NumeralBelow(a: string, b: string) {
    |a| < |b| || (|a| == |b| && Ascii(a, b) < 0)
  }

  function Tens(n: nat): nat {
    if n == 0 then 1 else 10 * Tens(n - 1)
  }

  lemma {:induction false} ValueBounds(s: string)
    requires Numeric(s)
    ensures Value(s) < Tens(|s|)
    ensures s[0] != '0' ==> Tens(|s| - 1) <= Value(s)
  {
    if |s| == 1 {
      assert Value(s[..0]) == 0;
      assert Tens(1) == 10 * Tens(0);
    } else {
      ValueBounds(s[..|s| - 1]);
      assert Digit(s[|s| - 1]);
    }
  }

  lemma {:induction false} TensGrow(m: nat, n: nat)
    requires m <= n
    ensures Tens(m) <= Tens(n)
  {
    if m < n {
      TensGrow(m, n - 1);
    }
  }

  lemma {:induction false} AsciiByLast(a: string, b: string, x: char, y: char)
    requires |a| == |b|
    ensures Ascii(a + [x], b + [y]) ==
            if Ascii(a, b) != 0 then Ascii(a, b) else if x < y then -1 else if x > y then 1 else 0
  {
    if a == "" {
      assert a + [x] == [x] && b + [y] == [y] && [x][1..] == "" && [y][1..] == "";
    } else {
      assert (a + [x])[1..] == a[1..] + [x] && (b + [y])[1..] == b[1..] + [y];
      AsciiByLast(a[1..], b[1..], x, y);
    }
  }

  lemma {:induction false} SameLength(a: string, b: string)
    requires |a| == |b|
    requires forall i :: 0 <= i < |a| ==> Digit(a[i]) && Digit(b[i])
    ensures Value(a) < Value(b) <==> Ascii(a, b) < 0
    ensures Value(a) == Value(b) <==> Ascii(a, b) == 0
  {
    if a != "" {
      var n := |a| - 1;
      SameLength(a[..n], b[..n]);
      AsciiByLast(a[..n], b[..n], a[n], b[n]);
      AsciiTies(a[..n], b[..n]);
      assert a == a[..n] + [a[n]] && b == b[..n] + [b[n]];
    }
  }

  lemma NumeralsByValue(a: string, b: string)
    requires Numeric(a) && Numeric(b) && Canonical(a) && Canonical(b)
    ensures Value(a) < Value(b) <==> NumeralBelow(a, b)
  {
    ValueBounds(a);
    ValueBounds(b);
    if |a| == |b| {
      SameLength(a, b);
    } else if |a| < |b| {
      TensGrow(|a|, |b| - 1);
    } else {
      TensGrow(|b|, |a| - 1);
    }
  }
}

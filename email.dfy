/**
 * Normalisation, validation and key derivation of a submitted email address:
 * `trim()` then `toLowerCase()`, the test against `^[^\s@]+@[^\s@]+\.[^\s@]+$`,
 * and the storage key `email:<address>`.
 */
module EmailAddress {
  import opened Wrappers

  // ---------------------------------------------------------------------------
  // Whitespace and normalisation

  /**
   * The characters ECMAScript counts as white space or line terminators; both
   * `String.prototype.trim` and the regular-expression class `\s` use this set.
   */
  predicate IsSpace(c: char) {
    var n := c as int;
    if n < 0x80 then n == 0x20 || 0x09 <= n <= 0x0D
    else
      n == 0xA0 || n == 0x1680 || 0x2000 <= n <= 0x200A || n == 0x2028 || n == 0x2029 ||
      n == 0x202F || n == 0x205F || n == 0x3000 || n == 0xFEFF
  }

  predicate AllSpace(s: string) {
    forall k | 0 <= k < |s| :: IsSpace(s[k])
  }

  /** The number of white-space characters `s` starts with. */
  function LeadingSpace(s: string): (n: nat)
    ensures n <= |s|
  {
    if s != [] && IsSpace(s[0]) then 1 + LeadingSpace(s[1..]) else 0
  }

  /** The number of white-space characters `s` ends with. */
  function TrailingSpace(s: string): (n: nat)
    ensures n <= |s|
  {
    if s != [] && IsSpace(s[|s| - 1]) then 1 + TrailingSpace(s[..|s| - 1]) else 0
  }

  function TrimStart(s: string): string {
    s[LeadingSpace(s)..]
  }

  function TrimEnd(s: string): string {
    s[..|s| - TrailingSpace(s)]
  }

  /** `String.prototype.trim`. */
  function Trim(s: string): (r: string)
    ensures |r| <= |s|
    ensures r == [] || (!IsSpace(r[0]) && !IsSpace(r[|r| - 1]))
  {
    TrimmedEnds(s);
    TrimEnd(TrimStart(s))
  }

  /** Lower-cases one character: A-Z become a-z, everything else is kept. */
  function LowerChar(c: char): (l: char)
    ensures IsSpace(l) == IsSpace(c)
    ensures !('A' <= l <= 'Z')
  {
    if 'A' <= c <= 'Z' then (c as int + 32) as char else c
  }

  /** `LowerChar` maps A-Z to a-z and keeps every other character. */
  lemma LowerCharMapsOnlyCapitals(c: char)
    ensures 'A' <= c <= 'Z' ==> LowerChar(c) as int == c as int + 32
    ensures !('A' <= c <= 'Z') ==> LowerChar(c) == c
  {
  }

  /** Lower-cases a string character by character (`LowerAt` states it pointwise). */
  function Lower(s: string): (r: string)
    ensures |r| == |s|
  {
    seq(|s|, k requires 0 <= k < |s| => LowerChar(s[k]))
  }

  /** `email.trim().toLowerCase()`. */
  function Normalize(s: string): (r: string)
    ensures |r| <= |s|
    ensures r == [] || (!IsSpace(r[0]) && !IsSpace(r[|r| - 1]))
    ensures forall k | 0 <= k < |r| :: !('A' <= r[k] <= 'Z')
  {
    LowerKeepsTrimmed(Trim(s));
    Lower(Trim(s))
  }

  // ---------------------------------------------------------------------------
  // Lemmas about trimming and lower-casing

  /** `LeadingSpace` counts exactly the white space before the first other character. */
  lemma {:induction false} LeadingSpaceExact(s: string)
    ensures forall k | 0 <= k < LeadingSpace(s) :: IsSpace(s[k])
    ensures LeadingSpace(s) < |s| ==> !IsSpace(s[LeadingSpace(s)])
  {
    if s != [] && IsSpace(s[0]) {
      LeadingSpaceExact(s[1..]);
      forall k | 1 <= k < LeadingSpace(s) ensures IsSpace(s[k]) {
        assert s[k] == s[1..][k - 1];
      }
    }
  }

  /** `TrailingSpace` counts exactly the white space after the last other character. */
  lemma {:induction false} TrailingSpaceExact(s: string)
    ensures forall k | |s| - TrailingSpace(s) <= k < |s| :: IsSpace(s[k])
    ensures TrailingSpace(s) < |s| ==> !IsSpace(s[|s| - 1 - TrailingSpace(s)])
  {
    if s != [] && IsSpace(s[|s| - 1]) {
      var s' := s[..|s| - 1];
      TrailingSpaceExact(s');
      forall k | |s| - TrailingSpace(s) <= k < |s| - 1 ensures IsSpace(s[k]) {
        assert s[k] == s'[k];
      }
      if TrailingSpace(s) < |s| {
        assert s[|s| - 1 - TrailingSpace(s)] == s'[|s'| - 1 - TrailingSpace(s')];
      }
    }
  }

  lemma TrimmedEnds(s: string)
    ensures var r := TrimEnd(TrimStart(s));
      r == [] || (!IsSpace(r[0]) && !IsSpace(r[|r| - 1]))
  {
    var t := TrimStart(s);
    var r := TrimEnd(t);
    if r != [] {
      LeadingSpaceExact(s);
      TrailingSpaceExact(t);
      assert r[0] == t[0] == s[LeadingSpace(s)];
      assert r[|r| - 1] == t[|t| - 1 - TrailingSpace(t)];
    }
  }

  /** What `TrimStart` drops is white space. */
  lemma TrimStartDropsSpace(s: string)
    ensures AllSpace(s[..LeadingSpace(s)])
  {
    LeadingSpaceExact(s);
    var i := LeadingSpace(s);
    forall k | 0 <= k < i ensures IsSpace(s[..i][k]) {
      assert s[..i][k] == s[k];
    }
  }

  /** What `TrimEnd` drops is white space. */
  lemma TrimEndDropsSpace(t: string)
    ensures AllSpace(t[|t| - TrailingSpace(t)..])
  {
    TrailingSpaceExact(t);
    var j := |t| - TrailingSpace(t);
    var u := t[j..];
    forall k | 0 <= k < |u| ensures IsSpace(u[k]) {
      assert u[k] == t[j + k];
    }
  }

  /**
   * What `Trim` keeps is the infix of its input that starts after the leading
   * white space, and all it drops on either side is white space.
   */
  lemma TrimIsInfix(s: string)
    ensures var i := LeadingSpace(s);
      && i + |Trim(s)| <= |s|
      && Trim(s) == s[i..i + |Trim(s)|]
      && AllSpace(s[..i]) && AllSpace(s[i + |Trim(s)|..])
  {
    var i := LeadingSpace(s);
    var t := TrimStart(s);
    var r := Trim(s);
    TrimStartDropsSpace(s);
    TrimEndDropsSpace(t);
    assert s[i..i + |r|] == r;
    assert s[i + |r|..] == t[|t| - TrailingSpace(t)..];
  }

  /** White space in front adds to the leading count. */
  lemma {:induction false} LeadingSpacePrefix(w: string, s: string)
    requires AllSpace(w)
    ensures LeadingSpace(w + s) == |w| + LeadingSpace(s)
    decreases |w|
  {
    if w == [] {
      assert w + s == s;
    } else {
      assert (w + s)[0] == w[0];
      assert (w + s)[1..] == w[1..] + s;
      LeadingSpacePrefix(w[1..], s);
    }
  }

  /** Text after the first non-space character does not change the leading count. */
  lemma {:induction false} LeadingSpaceSuffix(s: string, t: string)
    requires LeadingSpace(s) < |s|
    ensures LeadingSpace(s + t) == LeadingSpace(s)
    decreases |s|
  {
    assert (s + t)[0] == s[0];
    if IsSpace(s[0]) {
      assert (s + t)[1..] == s[1..] + t;
      LeadingSpaceSuffix(s[1..], t);
    }
  }

  /** White space behind adds to the trailing count. */
  lemma {:induction false} TrailingSpaceSuffix(s: string, w: string)
    requires AllSpace(w)
    ensures TrailingSpace(s + w) == TrailingSpace(s) + |w|
    decreases |w|
  {
    if w == [] {
      assert s + w == s;
    } else {
      var w' := w[..|w| - 1];
      assert (s + w)[|s + w| - 1] == w[|w| - 1];
      assert (s + w)[..|s + w| - 1] == s + w';
      TrailingSpaceSuffix(s, w');
    }
  }

  lemma AllSpaceAppend(s: string, w: string)
    requires AllSpace(s) && AllSpace(w)
    ensures AllSpace(s + w)
  {
    forall k | 0 <= k < |s + w| ensures IsSpace((s + w)[k]) {
      if k < |s| { assert (s + w)[k] == s[k]; } else { assert (s + w)[k] == w[k - |s|]; }
    }
  }

  /** Surrounding white space never reaches the trimmed value. */
  lemma TrimIgnoresSurroundingSpace(w1: string, s: string, w2: string)
    requires AllSpace(w1) && AllSpace(w2)
    ensures Trim(w1 + s + w2) == Trim(s)
  {
    var x := s + w2;
    assert w1 + s + w2 == w1 + x;
    LeadingSpacePrefix(w1, x);
    assert TrimStart(w1 + x) == TrimStart(x);
    TrimIgnoresTrailingSpace(s, w2);
  }

  /** White space behind never reaches the trimmed value. */
  lemma TrimIgnoresTrailingSpace(s: string, w2: string)
    requires AllSpace(w2)
    ensures Trim(s + w2) == Trim(s)
  {
    var x := s + w2;
    LeadingSpaceExact(s);
    if LeadingSpace(s) == |s| {
      assert AllSpace(s);
      AllSpaceAppend(s, w2);
      LeadingSpacePrefix(x, []);
      assert x + [] == x;
    } else {
      LeadingSpaceSuffix(s, w2);
      assert TrimStart(x) == TrimStart(s) + w2;
      TrailingSpaceSuffix(TrimStart(s), w2);
    }
  }

  /** Lower-casing never turns a white-space character into another kind, so the counts agree. */
  lemma {:induction false} LeadingSpaceLower(s: string)
    ensures LeadingSpace(Lower(s)) == LeadingSpace(s)
    decreases |s|
  {
    if s != [] {
      LowerAt(s, 0);
      LowerSlice(s, 1, |s|);
      assert s[1..|s|] == s[1..];
      assert Lower(s)[1..|s|] == Lower(s)[1..];
      LeadingSpaceLower(s[1..]);
    }
  }

  lemma {:induction false} TrailingSpaceLower(s: string)
    ensures TrailingSpace(Lower(s)) == TrailingSpace(s)
    decreases |s|
  {
    if s != [] {
      var s' := s[..|s| - 1];
      LowerSlice(s, 0, |s| - 1);
      assert s[0..|s| - 1] == s';
      assert Lower(s)[0..|s| - 1] == Lower(s)[..|s| - 1];
      LowerAt(s, |s| - 1);
      TrailingSpaceLower(s');
    }
  }

  lemma LowerSlice(s: string, i: nat, j: nat)
    requires i <= j <= |s|
    ensures Lower(s)[i..j] == Lower(s[i..j])
  {
    var a, b := Lower(s)[i..j], Lower(s[i..j]);
    forall k | 0 <= k < j - i ensures a[k] == b[k] {
      calc {
        a[k];
        Lower(s)[i + k];
        { LowerAt(s, i + k); }
        LowerChar(s[i + k]);
        LowerChar(s[i..j][k]);
        { LowerAt(s[i..j], k); }
        b[k];
      }
    }
  }

  /** Character `k` of `Lower(s)` is character `k` of `s`, lower-cased. */
  lemma LowerAt(s: string, k: nat)
    requires k < |s|
    ensures Lower(s)[k] == LowerChar(s[k])
  {
  }

  lemma TrimStartLower(s: string)
    ensures TrimStart(Lower(s)) == Lower(TrimStart(s))
  {
    LeadingSpaceLower(s);
    LowerSlice(s, LeadingSpace(s), |s|);
    assert s[LeadingSpace(s)..|s|] == s[LeadingSpace(s)..];
    assert Lower(s)[LeadingSpace(s)..|s|] == Lower(s)[LeadingSpace(s)..];
  }

  lemma TrimEndLower(t: string)
    ensures TrimEnd(Lower(t)) == Lower(TrimEnd(t))
  {
    TrailingSpaceLower(t);
    LowerSlice(t, 0, |t| - TrailingSpace(t));
    assert t[0..|t| - TrailingSpace(t)] == t[..|t| - TrailingSpace(t)];
    assert Lower(t)[0..|t| - TrailingSpace(t)] == Lower(t)[..|t| - TrailingSpace(t)];
  }

  /** Trimming and lower-casing commute. */
  lemma TrimLower(s: string)
    ensures Trim(Lower(s)) == Lower(Trim(s))
  {
    TrimStartLower(s);
    TrimEndLower(TrimStart(s));
  }

  /**
   * Two candidates that differ only in letter case and in the white space
   * around them normalise to the same address.
   */
  lemma SameAddressUpToCaseAndSpace(w1: string, a: string, w2: string, w3: string, b: string, w4: string)
    requires AllSpace(w1) && AllSpace(w2) && AllSpace(w3) && AllSpace(w4)
    requires Lower(a) == Lower(b)
    ensures Normalize(w1 + a + w2) == Normalize(w3 + b + w4)
  {
    TrimIgnoresSurroundingSpace(w1, a, w2);
    TrimIgnoresSurroundingSpace(w3, b, w4);
    TrimLower(a);
    TrimLower(b);
  }

  /** Lower-casing leaves a string without upper-case letters as it is. */
  lemma LowerFixesLowerCase(r: string)
    requires forall k | 0 <= k < |r| :: !('A' <= r[k] <= 'Z')
    ensures Lower(r) == r
  {
    forall k | 0 <= k < |r| ensures Lower(r)[k] == r[k] {
      LowerAt(r, k);
      LowerCharMapsOnlyCapitals(r[k]);
    }
  }

  /** Trimming leaves a string without surrounding white space as it is. */
  lemma TrimmedIsFixed(r: string)
    requires r == [] || (!IsSpace(r[0]) && !IsSpace(r[|r| - 1]))
    ensures Trim(r) == r
  {
    assert LeadingSpace(r) == 0 && TrimStart(r) == r;
    assert TrailingSpace(r) == 0 && TrimEnd(r) == r;
  }

  /** A string already trimmed and lower-cased is its own normal form. */
  lemma NormalFormIsFixed(r: string)
    requires r == [] || (!IsSpace(r[0]) && !IsSpace(r[|r| - 1]))
    requires forall k | 0 <= k < |r| :: !('A' <= r[k] <= 'Z')
    ensures Normalize(r) == r
  {
    TrimmedIsFixed(r);
    LowerFixesLowerCase(r);
  }

  /** Normalising an address a second time changes nothing. */
  lemma NormalizeIdempotent(s: string)
    ensures Normalize(Normalize(s)) == Normalize(s)
  {
    NormalFormIsFixed(Normalize(s));
  }

  /** Lower-casing keeps a trimmed string trimmed and leaves no upper-case letter. */
  lemma LowerKeepsTrimmed(t: string)
    requires t == [] || (!IsSpace(t[0]) && !IsSpace(t[|t| - 1]))
    ensures Lower(t) == [] || (!IsSpace(Lower(t)[0]) && !IsSpace(Lower(t)[|t| - 1]))
    ensures forall k | 0 <= k < |t| :: !('A' <= Lower(t)[k] <= 'Z')
  {
    forall k | 0 <= k < |t| ensures Lower(t)[k] == LowerChar(t[k]) {
      LowerAt(t, k);
    }
  }

  // ---------------------------------------------------------------------------
  // Lemmas about normalisation

  /** Splitting a string at two positions and joining the parts gives it back. */
  lemma SplitThree(p: string, i: nat, j: nat)
    requires i <= j <= |p|
    ensures p == p[..i] + p[i..j] + p[j..]
  {
  }

  lemma SamplePadding(padded: string)
    requires padded == "  User@Example.COM "
    ensures |padded| == 19 && AllSpace(padded[..2]) && AllSpace(padded[18..])
  {
    var w1, w2 := padded[..2], padded[18..];
    forall k | 0 <= k < |w1| ensures IsSpace(w1[k]) {
      assert w1[k] == padded[k];
    }
    forall k | 0 <= k < |w2| ensures IsSpace(w2[k]) {
      assert w2[k] == padded[18 + k];
    }
  }

  lemma SampleLower(padded: string, plain: string)
    requires padded == "  User@Example.COM " && plain == "user@example.com"
    ensures Lower(padded[2..18]) == plain
  {
    var a := padded[2..18];
    forall k | 0 <= k < |a| ensures Lower(a)[k] == plain[k] {
      LowerAt(a, k);
      assert a[k] == padded[2 + k];
    }
  }

  lemma SamplePlain(plain: string)
    requires plain == "user@example.com"
    ensures Normalize(plain) == plain && Lower(plain) == plain
  {
    assert forall k | 0 <= k < |plain| :: !('A' <= plain[k] <= 'Z');
    NormalFormIsFixed(plain);
    LowerFixesLowerCase(plain);
  }

  /** The sample address with mixed case and padding normalises to its plain lower-case form. */
  lemma NormalizeExample(padded: string, plain: string)
    requires padded == "  User@Example.COM " && plain == "user@example.com"
    ensures Normalize(padded) == plain
  {
    SamplePadding(padded);
    SampleLower(padded, plain);
    SamplePlain(plain);
    SplitThree(padded, 2, 18);
    assert plain == [] + plain + [];
    SameAddressUpToCaseAndSpace(padded[..2], padded[2..18], padded[18..], [], plain, []);
  }

  // ---------------------------------------------------------------------------
  // Validation

  /** A character of `[^\s@]`. */
  predicate IsPlain(c: char) {
    !IsSpace(c) && c != '@'
  }

  predicate AllPlain(s: string) {
    forall k | 0 <= k < |s| :: IsPlain(s[k])
  }

  /**
   * `s` is `local@domain.tld` with the `@` at `i` and the `.` at `j`, each of
   * the three parts a non-empty run of `[^\s@]`.
   */
  ghost predicate SplitsAsEmail(s: string, i: int, j: int) {
    && 0 < i && i + 1 < j && j + 1 < |s|
    && s[i] == '@' && s[j] == '.'
    && AllPlain(s[..i]) && AllPlain(s[i + 1..j]) && AllPlain(s[j + 1..])
  }

  /** The language of `^[^\s@]+@[^\s@]+\.[^\s@]+$`. */
  ghost predicate MatchesEmailPattern(s: string) {
    exists i, j :: SplitsAsEmail(s, i, j)
  }

  /** The position of the first occurrence of `c` in `s`. */
  function IndexOf(s: string, c: char): (r: Option<nat>)
    ensures r.Some? ==> r.value < |s| && s[r.value] == c && c !in s[..r.value]
    ensures r.None? ==> c !in s
  {
    if s == [] then None
    else if s[0] == c then Some(0)
    else match IndexOf(s[1..], c)
      case None => None
      case Some(i) => assert s[1..][..i] == s[1..i + 1]; Some(i + 1)
  }

  /** A `.` strictly inside `d`: with at least one character before and after it. */
  predicate HasInnerDot(d: string) {
    exists j | 0 < j < |d| - 1 :: d[j] == '.'
  }

  /**
   * The character-level form of `emailPattern.test(s)`: no white space, one
   * `@` with something before it, and a `.` inside what follows it.
   */
  predicate IsValidEmail(s: string) {
    match IndexOf(s, '@')
    case None => false
    case Some(i) =>
      && 0 < i
      && (forall k | 0 <= k < |s| :: !IsSpace(s[k]))
      && '@' !in s[i + 1..]
      && HasInnerDot(s[i + 1..])
  }

  /** An address without `@` is invalid. */
  lemma NoAtIsInvalid(s: string)
    requires forall k | 0 <= k < |s| :: s[k] != '@'
    ensures !IsValidEmail(s)
  {
    assert IndexOf(s, '@').None?;
  }

  /** The character-level test accepts exactly the strings the regular expression matches. */
  lemma ValidEmailIffPattern(s: string)
    ensures IsValidEmail(s) <==> MatchesEmailPattern(s)
  {
    if IsValidEmail(s) {
      var i := IndexOf(s, '@').value;
      var d := s[i + 1..];
      var j' :| 0 < j' < |d| - 1 && d[j'] == '.';
      var j := i + 1 + j';
      assert s[i + 1..j] == d[..j'];
      assert s[j + 1..] == d[j' + 1..];
      assert forall k | 0 <= k < i :: s[..i][k] in s[..i];
      assert SplitsAsEmail(s, i, j);
    }
    if MatchesEmailPattern(s) {
      var i, j :| SplitsAsEmail(s, i, j);
      PatternHasOnlyOneAt(s, i, j);
    }
  }

  /** In a string split as the pattern demands, the `@` of the split is the first `@`. */
  lemma PatternHasOnlyOneAt(s: string, i: int, j: int)
    requires SplitsAsEmail(s, i, j)
    ensures IndexOf(s, '@') == Some(i)
    ensures IsValidEmail(s)
  {
    assert forall k | 0 <= k < i :: s[k] == s[..i][k];
    assert '@' !in s[..i];
    var d := s[i + 1..];
    forall k | 0 <= k < |d|
      ensures IsPlain(d[k]) || k == j - i - 1
    {
      if k < j - i - 1 { assert d[k] == s[i + 1..j][k]; }
      else if k > j - i - 1 { assert d[k] == s[j + 1..][k - (j - i)]; }
    }
    forall k | 0 <= k < |s| ensures !IsSpace(s[k]) {
      if k < i { assert s[k] == s[..i][k]; }
      else if k > i { assert s[k] == d[k - i - 1]; }
    }
    assert d[j - i - 1] == '.';
  }

  lemma EmptyIsInvalid()
    ensures !IsValidEmail("")
  {
  }

  /** A string with no `.` after its first `@` is rejected. */
  lemma NoDotAfterAtIsInvalid(s: string, i: nat)
    requires i < |s| && s[i] == '@' && '.' !in s[i + 1..]
    ensures !IsValidEmail(s)
  {
  }

  /** White space anywhere, even between the parts, is rejected. */
  lemma SpaceIsInvalid(s: string, k: nat)
    requires k < |s| && IsSpace(s[k])
    ensures !IsValidEmail(s)
  {
  }

  /** A split with the `@` at `i`, the `.` at `j` and `[^\s@]` everywhere else. */
  lemma SplitAround(s: string, i: nat, j: nat)
    requires 0 < i && i + 1 < j && j + 1 < |s| && s[i] == '@' && s[j] == '.'
    requires forall k | 0 <= k < |s| && k != i && k != j :: IsPlain(s[k])
    ensures SplitsAsEmail(s, i, j)
  {
    forall k | 0 <= k < i ensures IsPlain(s[..i][k]) {
      assert s[..i][k] == s[k];
    }
    var m, t := s[i + 1..j], s[j + 1..];
    forall k | 0 <= k < |m| ensures IsPlain(m[k]) {
      assert m[k] == s[i + 1 + k];
    }
    forall k | 0 <= k < |t| ensures IsPlain(t[k]) {
      assert t[k] == s[j + 1 + k];
    }
  }

  lemma ValidExample()
    ensures IsValidEmail("test@example.com")
  {
    var s := "test@example.com";
    assert forall k | 0 <= k < |s| && k != 4 && k != 12 :: IsPlain(s[k]);
    SplitAround(s, 4, 12);
    PatternHasOnlyOneAt(s, 4, 12);
  }

  /** `a@b.com` is already in normal form and is accepted. */
  lemma ShortAddressSample(s: string)
    requires s == "a@b.com"
    ensures Normalize(s) == s && IsValidEmail(s)
  {
    assert forall k | 0 <= k < |s| :: !('A' <= s[k] <= 'Z');
    NormalFormIsFixed(s);
    assert forall k | 0 <= k < |s| && k != 1 && k != 3 :: IsPlain(s[k]);
    SplitAround(s, 1, 3);
    PatternHasOnlyOneAt(s, 1, 3);
  }

  /** `not-an-email` is already in normal form and is rejected. */
  lemma NoAddressSample(s: string)
    requires s == "not-an-email"
    ensures Normalize(s) == s && !IsValidEmail(s)
  {
    assert forall k | 0 <= k < |s| :: !('A' <= s[k] <= 'Z') && s[k] != '@';
    NormalFormIsFixed(s);
    NoAtIsInvalid(s);
  }

  // ---------------------------------------------------------------------------
  // Storage key

  const KeyPrefix: string := "email:"

  /** The key a subscriber is stored under: `email:` followed by the address. */
  function StorageKey(email: string): (key: string)
    ensures |key| == |KeyPrefix| + |email|
    ensures key[..|KeyPrefix|] == KeyPrefix && key[|KeyPrefix|..] == email
  {
    KeyPrefix + email
  }

  /** Different addresses never share a key. */
  lemma StorageKeyInjective(a: string, b: string)
    requires StorageKey(a) == StorageKey(b)
    ensures a == b
  {
    assert a == StorageKey(a)[|KeyPrefix|..];
  }
}

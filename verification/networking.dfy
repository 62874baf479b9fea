/**
 * Host-name helpers of the forensics toolkit: the domain-name syntax
 * check, and the test of a target against a list of safe-environment
 * patterns (exact, suffix and `*` wildcard matching, case-insensitive).
 *
 * The domain check is a regular expression for the preferred name syntax
 * of section 2.3.1 of RFC 1035, relaxed as in section 2.1 of RFC 1123 so
 * that a label may start with a digit, with labels of at most 63
 * characters (section 2.3.4 of RFC 1035) and names of at most 253.
 */
module Networking {
  import opened Common

  const MAX_NAME_LENGTH: nat := 253
  const MAX_LABEL_LENGTH: nat := 63

  predicate IsAsciiLetter(c: char)
  {
    'a' <= c <= 'z' || 'A' <= c <= 'Z'
  }

  /** `[a-zA-Z0-9]`. */
  predicate IsAlnum(c: char)
  {
    IsAsciiLetter(c) || '0' <= c <= '9'
  }

  /** `[a-zA-Z0-9\-]`. */
  predicate IsLabelChar(c: char)
  {
    IsAlnum(c) || c == '-'
  }

  /** `[a-zA-Z0-9]([a-zA-Z0-9\-]{0,61}[a-zA-Z0-9])?`: 1 to 63 characters, letters and digits at both ends. */
  predicate ValidLabel(l: string)
  {
    && 1 <= |l| <= MAX_LABEL_LENGTH
    && IsAlnum(l[0]) && IsAlnum(l[|l| - 1])
    && forall k :: 0 <= k < |l| ==> IsLabelChar(l[k])
  }

  /** Index of the first '.', |s| when there is none. */
  function FirstDot(s: string): nat
  {
    IndexOf(s, '.')
  }

  /**
   * The pattern `([label]\.)*[label]` matched against all of s: a label up
   * to the first dot, and after it another name.
   */
  function NameMatch(s: string): bool
    decreases |s|
  {
    var i := FirstDot(s);
    if i == |s| then ValidLabel(s)
    else ValidLabel(s[..i]) && NameMatch(s[i + 1..])
  }

  /** A dot among the 64 characters from k on. */
  ghost predicate DotWithin(s: string, k: nat)
    requires k + MAX_LABEL_LENGTH + 1 <= |s|
  {
    exists d :: k <= d < k + MAX_LABEL_LENGTH + 1 && s[d] == '.'
  }

  /**
   * The same language described character by character: letters, digits,
   * hyphens and dots; a letter or digit at both ends and on both sides of
   * every dot; and a dot in every window of 64 characters.
   */
  ghost predicate DottedName(s: string)
  {
    && 1 <= |s|
    && IsAlnum(s[0]) && IsAlnum(s[|s| - 1])
    && (forall k :: 0 <= k < |s| ==> IsLabelChar(s[k]) || s[k] == '.')
    && (forall k :: 0 < k < |s| - 1 && s[k] == '.' ==> IsAlnum(s[k - 1]) && IsAlnum(s[k + 1]))
    && (forall k: nat :: k + MAX_LABEL_LENGTH + 1 <= |s| ==> DotWithin(s, k))
  }

  lemma {:induction false} NameMatchIsDotted(s: string)
    requires NameMatch(s)
    ensures DottedName(s)
    decreases |s|
  {
    var i := FirstDot(s);
    if i < |s| {
      var rest := s[i + 1..];
      NameMatchIsDotted(rest);
      assert s[..i][0] == s[0];
      forall k | 0 < k < |s| - 1 && s[k] == '.' ensures IsAlnum(s[k - 1]) && IsAlnum(s[k + 1]) {
        if k == i {
          assert s[k - 1] == s[..i][i - 1];
          assert s[k + 1] == rest[0];
        } else {
          assert k > i;
          assert s[k] == rest[k - i - 1];
          if k - i - 1 == 0 {
            assert false;
          }
          assert s[k - 1] == rest[k - i - 2] && s[k + 1] == rest[k - i];
        }
      }
      forall k: nat | k + MAX_LABEL_LENGTH + 1 <= |s| ensures DotWithin(s, k) {
        if k <= i {
          assert s[i] == '.';
        } else {
          assert DotWithin(rest, k - i - 1);
          var d :| k - i - 1 <= d < k - i - 1 + MAX_LABEL_LENGTH + 1 && rest[d] == '.';
          assert s[d + i + 1] == '.';
        }
      }
      forall k | 0 <= k < |s| ensures IsLabelChar(s[k]) || s[k] == '.' {
        if k < i {
          assert s[k] == s[..i][k];
        } else if k > i {
          assert s[k] == rest[k - i - 1];
        }
      }
    }
  }

  lemma {:induction false} DottedIsNameMatch(s: string)
    requires DottedName(s)
    ensures NameMatch(s)
    decreases |s|
  {
    var i := FirstDot(s);
    FirstDotBound(s);
    if i < |s| {
      DottedSplit(s);
      DottedIsNameMatch(s[i + 1..]);
    }
  }

  /** A dotted name with a dot is a valid label, a dot, and a dotted name. */
  lemma DottedSplit(s: string)
    requires DottedName(s) && FirstDot(s) < |s|
    ensures ValidLabel(s[..FirstDot(s)]) && DottedName(s[FirstDot(s) + 1..])
  {
    var i := FirstDot(s);
    FirstDotBound(s);
    var name, rest := s[..i], s[i + 1..];
    assert 0 < i < |s| - 1;
    assert name[|name| - 1] == s[i - 1];
    forall k | 0 <= k < |name| ensures IsLabelChar(name[k]) {
      assert name[k] == s[k] && s[k] != '.';
    }
    assert rest[0] == s[i + 1];
    forall k | 0 < k < |rest| - 1 && rest[k] == '.' ensures IsAlnum(rest[k - 1]) && IsAlnum(rest[k + 1]) {
      assert rest[k] == s[k + i + 1];
    }
    forall k: nat | k + MAX_LABEL_LENGTH + 1 <= |rest| ensures DotWithin(rest, k) {
      assert DotWithin(s, k + i + 1);
      var d :| k + i + 1 <= d < k + i + 1 + MAX_LABEL_LENGTH + 1 && s[d] == '.';
      assert rest[d - i - 1] == '.';
    }
    forall k | 0 <= k < |rest| ensures IsLabelChar(rest[k]) || rest[k] == '.' {
      assert rest[k] == s[k + i + 1];
    }
  }

  /** In a dotted name the first label is at most 63 characters long. */
  lemma FirstDotBound(s: string)
    requires DottedName(s)
    ensures FirstDot(s) <= MAX_LABEL_LENGTH
  {
    if |s| > MAX_LABEL_LENGTH {
      assert DotWithin(s, 0);
      var d :| 0 <= d < MAX_LABEL_LENGTH + 1 && s[d] == '.';
    }
  }

  /** The two descriptions of the name syntax agree. */
  lemma NameMatchIffDotted(s: string)
    ensures NameMatch(s) <==> DottedName(s)
  {
    if NameMatch(s) {
      NameMatchIsDotted(s);
    }
    if DottedName(s) {
      DottedIsNameMatch(s);
    }
  }

  /**
   * is_valid_domain: non-empty, at most 253 characters, and matched by
   * the pattern. Python's `$` also matches before a final newline, so one
   * trailing '\n' after a valid name is accepted.
   */
  function IsValidDomain(s: string): (ok: bool)
    ensures ok ==> 1 <= |s| <= MAX_NAME_LENGTH
  {
    && 0 < |s| <= MAX_NAME_LENGTH
    && (NameMatch(s) || (s[|s| - 1] == '\n' && NameMatch(s[..|s| - 1])))
  }

  /**
   * Shape of an accepted name (the trailing newline set aside): it neither
   * starts nor ends with a dot, holds no two dots in a row, and no label
   * starts or ends with a hyphen.
   */
  lemma ValidDomainShape(s: string)
    requires IsValidDomain(s) && s[|s| - 1] != '\n'
    ensures s[0] != '.' && s[|s| - 1] != '.' && s[0] != '-' && s[|s| - 1] != '-'
    ensures forall k :: 0 <= k < |s| - 1 && s[k] == '.' ==> s[k + 1] != '.' && s[k + 1] != '-'
    ensures forall k :: 0 < k < |s| && s[k] == '.' ==> s[k - 1] != '-'
  {
    NameMatchIsDotted(s);
  }

  /** A name made of valid labels joined by dots is accepted when it is short enough. */
  lemma {:induction false} JoinedLabelsMatch(l: string, s: string)
    requires ValidLabel(l) && NameMatch(s)
    ensures NameMatch(l + "." + s)
  {
    var t := l + "." + s;
    FirstDotOfLabel(l, s);
    assert t[..|l|] == l && t[|l| + 1..] == s;
  }

  lemma FirstDotOfLabel(l: string, s: string)
    requires ValidLabel(l)
    ensures FirstDot(l + "." + s) == |l|
  {
    var t := l + "." + s;
    forall k | 0 <= k < |l| ensures t[k] != '.' {
      assert t[k] == l[k];
    }
    IndexOfAt(t, '.', |l|);
  }

  /** The empty string and anything over 253 characters are rejected. */
  lemma LengthBounds()
    ensures !IsValidDomain("")
    ensures forall s: string :: |s| > MAX_NAME_LENGTH ==> !IsValidDomain(s)
  {
  }

  // ---------------------------------------------------------------------
  // Safe environments

  /** ASCII lower-casing of one character. */
  function LowerChar(c: char): (d: char)
    ensures !('A' <= d <= 'Z')
    ensures 'A' <= c <= 'Z' || d == c
  {
    if 'A' <= c <= 'Z' then (c as int + 32) as char else c
  }

  function Lower(s: string): (r: string)
    ensures |r| == |s| && forall k :: 0 <= k < |s| ==> r[k] == LowerChar(s[k])
  {
    seq(|s|, k requires 0 <= k < |s| => LowerChar(s[k]))
  }

  lemma LowerIdempotent(s: string)
    ensures Lower(Lower(s)) == Lower(s)
  {
  }

  predicate EndsWith(s: string, suffix: string)
  {
    |suffix| <= |s| && s[|s| - |suffix|..] == suffix
  }

  /**
   * The characters the wildcard test hands to the regular-expression
   * engine unescaped besides `*`. Patterns are taken to be free of them.
   */
  predicate IsRegexMeta(c: char)
  {
    c in "\\^$+?{}[]()|"
  }

  /**
   * The wildcard pattern with `.` escaped and `*` turned into `.*`, matched
   * from the start to the end: `*` takes any run of characters other than
   * a newline, every other character stands for itself.
   */
  function Glob(p: string, t: string): bool
    decreases |p| + |t|
  {
    if p == [] then t == []
    else if p[0] == '*' then Glob(p[1..], t) || (t != [] && t[0] != '\n' && Glob(p, t[1..]))
    else t != [] && t[0] == p[0] && Glob(p[1..], t[1..])
  }

  /** `re.match('^...$', t)`: the whole target, or all of it but a final newline. */
  function WildcardMatch(p: string, t: string): bool
  {
    Glob(p, t) || (t != [] && t[|t| - 1] == '\n' && Glob(p, t[..|t| - 1]))
  }

  /** One pattern of the list, both already lower-cased: exact, suffix or wildcard. */
  function PatternAccepts(t: string, p: string): bool
  {
    t == p || EndsWith(t, p) || ('*' in p && WildcardMatch(p, t))
  }

  /**
   * is_safe_environment: scans the patterns in order and stops at the
   * first one that accepts the lower-cased target.
   */
  method IsSafeEnvironment(target: string, safeList: seq<string>) returns (safe: bool)
    requires forall i, k :: 0 <= i < |safeList| && 0 <= k < |safeList[i]| && '*' in safeList[i] ==> !IsRegexMeta(safeList[i][k])
    ensures safe <==> exists i :: 0 <= i < |safeList| && PatternAccepts(Lower(target), Lower(safeList[i]))
  {
    var t := Lower(target);
    var i := 0;
    while i < |safeList|
      invariant 0 <= i <= |safeList|
      invariant forall j :: 0 <= j < i ==> !PatternAccepts(t, Lower(safeList[j]))
    {
      var p := Lower(safeList[i]);
      if t == p {
        return true;
      }
      if EndsWith(t, p) {
        return true;
      }
      if '*' in p && WildcardMatch(p, t) {
        return true;
      }
      i := i + 1;
    }
    return false;
  }

  /** An exact match is also a suffix match, so the first test never decides alone. */
  lemma ExactIsSuffix(t: string)
    ensures EndsWith(t, t)
  {
  }

  /** The empty pattern accepts every target. */
  lemma EmptyPatternAcceptsAll(t: string)
    ensures PatternAccepts(t, "")
  {
    assert t[|t|..] == [];
  }

  /** A pattern without `*` is matched exactly by the wildcard engine. */
  lemma {:induction false} GlobWithoutStar(p: string, t: string)
    requires '*' !in p
    ensures Glob(p, t) <==> p == t
    decreases |p| + |t|
  {
    if p != [] && t != [] {
      assert '*' !in p[1..] by {
        forall k | 0 <= k < |p[1..]| ensures p[1..][k] != '*' {
          assert p[1..][k] == p[k + 1];
        }
      }
      GlobWithoutStar(p[1..], t[1..]);
      assert p == [p[0]] + p[1..] && t == [t[0]] + t[1..];
    }
  }

  /** `*` followed by q accepts every newline-free target ending in q. */
  lemma {:induction false} LeadingStarAcceptsSuffix(q: string, t: string)
    requires '*' !in q && EndsWith(t, q)
    requires forall k :: 0 <= k < |t| ==> t[k] != '\n'
    ensures Glob("*" + q, t)
    decreases |t|
  {
    var p := "*" + q;
    assert p[1..] == q;
    if |t| == |q| {
      assert t == q;
      GlobWithoutStar(q, t);
    } else {
      assert t[1..][|t[1..]| - |q|..] == t[|t| - |q|..];
      LeadingStarAcceptsSuffix(q, t[1..]);
    }
  }

  /** Case does not matter: a target and its lower-cased form are judged alike. */
  lemma CaseInsensitive(target: string, p: string)
    ensures PatternAccepts(Lower(Lower(target)), Lower(p)) == PatternAccepts(Lower(target), Lower(p))
  {
    LowerIdempotent(target);
  }

  // ---------------------------------------------------------------------
  // The suffix test at a label boundary

  /**
   * The suffix test as written has no label boundary: a pattern naming one
   * domain also accepts an unrelated name that merely ends in it, and the
   * empty pattern accepts everything.
   */
  lemma SuffixIgnoresLabels()
    ensures PatternAccepts("evilexample.com", "example.com")
    ensures !PatternAcceptsAtLabel("evilexample.com", "example.com")
  {
    assert "evilexample.com"[4..] == "example.com";
    assert "evilexample.com"[3] != '.';
  }

  /**
   * The name is the domain itself or one of its subdomains; a pattern that
   * starts with a dot (`.htb`) already carries its boundary and accepts
   * every name ending in it.
   */
  predicate DomainSuffix(t: string, p: string)
  {
    || t == p
    || (|p| < |t| && t[|t| - |p| - 1] == '.' && EndsWith(t, p))
    || (|p| > 0 && p[0] == '.' && EndsWith(t, p))
  }

  /**
   * DomainSuffix holds exactly for the domain, for names of the form
   * `prefix.domain`, and, for a pattern starting with a dot, for names of
   * the form `prefix` followed by the pattern.
   */
  lemma DomainSuffixIsSubdomain(t: string, p: string)
    ensures DomainSuffix(t, p) <==>
              || t == p
              || (exists pre :: t == pre + "." + p)
              || (|p| > 0 && p[0] == '.' && exists pre :: t == pre + p)
  {
    if |p| < |t| && t[|t| - |p| - 1] == '.' && EndsWith(t, p) {
      var pre := t[..|t| - |p| - 1];
      assert t == pre + "." + p;
    }
    if |p| > 0 && p[0] == '.' && EndsWith(t, p) {
      var pre := t[..|t| - |p|];
      assert t == pre + p;
    }
    if pre :| t == pre + "." + p {
      assert t[|t| - |p| - 1] == '.' && t[|t| - |p|..] == p;
    }
    if |p| > 0 && p[0] == '.' && exists pre :: t == pre + p {
      var pre :| t == pre + p;
      assert t[|t| - |p|..] == p;
    }
  }

  /** A leading-dot pattern names its subdomains but not a name that merely ends in its letters. */
  lemma LeadingDotPattern()
    ensures PatternAcceptsAtLabel("box.htb", ".htb")
    ensures !PatternAcceptsAtLabel("boxhtb", ".htb")
  {
    assert "box.htb"[3..] == ".htb";
    assert "boxhtb"[2..] != ".htb" by { assert "boxhtb"[2] != '.'; }
  }

  /** One pattern with the suffix test held to a label boundary. */
  predicate PatternAcceptsAtLabel(t: string, p: string)
  {
    DomainSuffix(t, p) || ('*' in p && WildcardMatch(p, t))
  }

  /**
   * is_safe_environment with the suffix test at a label boundary: a target
   * is safe when it is a listed domain, a subdomain of one, or matches a
   * wildcard pattern.
   */
  method IsSafeEnvironmentAtLabel(target: string, safeList: seq<string>) returns (safe: bool)
    requires forall i, k :: 0 <= i < |safeList| && 0 <= k < |safeList[i]| && '*' in safeList[i] ==> !IsRegexMeta(safeList[i][k])
    ensures safe <==> exists i :: 0 <= i < |safeList| && PatternAcceptsAtLabel(Lower(target), Lower(safeList[i]))
  {
    var t := Lower(target);
    var i := 0;
    while i < |safeList|
      invariant 0 <= i <= |safeList|
      invariant forall j :: 0 <= j < i ==> !PatternAcceptsAtLabel(t, Lower(safeList[j]))
    {
      var p := Lower(safeList[i]);
      if DomainSuffix(t, p) {
        return true;
      }
      if '*' in p && WildcardMatch(p, t) {
        return true;
      }
      i := i + 1;
    }
    return false;
  }

  /** Every target the corrected test accepts is accepted as written too; the converse fails (SuffixIgnoresLabels). */
  lemma AtLabelIsStricter(t: string, p: string)
    ensures PatternAcceptsAtLabel(t, p) ==> PatternAccepts(t, p)
  {
  }

  /** Under the corrected test the empty pattern accepts only the empty target and names ending in a dot. */
  lemma EmptyPatternAtLabel(t: string)
    ensures PatternAcceptsAtLabel(t, "") <==> t == "" || t[|t| - 1] == '.'
  {
    if t != [] && t[|t| - 1] == '.' {
      assert t[|t|..] == "";
    }
  }
}

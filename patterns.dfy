/**
 * The two regular expressions of the contact form, written down as data,
 * with the meaning JavaScript's `RegExp.prototype.test` gives them: both
 * are anchored by `^` and `$`, so a string passes exactly when it belongs
 * to the pattern's language.
 */
module Patterns {
  import opened Maybe

  /** One member of a bracket expression: the characters from `lo` to `hi` (a single character when equal). */
  datatype ClassItem = Range(lo: char, hi: char)

  /** A bracket expression repeated between `min` and `max` times (`max == None` for `+` and `{n,}`). */
  datatype Atom = Repeat(items: seq<ClassItem>, min: nat, max: Option<nat>)

  /** A whole anchored expression; `ignoreCase` is the `i` flag. */
  datatype Pattern = Pattern(atoms: seq<Atom>, ignoreCase: bool)

  function Upper(c: char): char
  {
    if 'a' <= c <= 'z' then (c as int - 32) as char else c
  }

  function Lower(c: char): char
  {
    if 'A' <= c <= 'Z' then (c as int + 32) as char else c
  }

  /** Case folding changes letters only, and only into the other case. */
  lemma FoldsOnlyLetters(c: char)
    ensures Upper(c) != c ==> 'a' <= c <= 'z' && 'A' <= Upper(c) <= 'Z'
    ensures Lower(c) != c ==> 'A' <= c <= 'Z' && 'a' <= Lower(c) <= 'z'
  {
  }

  /**
   * Membership of `c` in an ASCII range. Under the `i` flag a character
   * matches when it or its other-case ASCII letter lies in the range;
   * outside ASCII nothing folds into these ranges (JavaScript's non-Unicode
   * case folding never maps a non-ASCII character onto an ASCII one).
   */
  predicate InRange(r: ClassItem, c: char, ignoreCase: bool)
  {
    (r.lo <= c <= r.hi) || (ignoreCase && (r.lo <= Upper(c) <= r.hi || r.lo <= Lower(c) <= r.hi))
  }

  predicate InClass(items: seq<ClassItem>, c: char, ignoreCase: bool)
  {
    exists r :: r in items && InRange(r, c, ignoreCase)
  }

  /** Under the `i` flag `[A-Z]` holds the ASCII letters of both cases. */
  lemma InLetterRange(c: char)
    ensures InRange(Range('A', 'Z'), c, true) <==> 'A' <= c <= 'Z' || 'a' <= c <= 'z'
  {
    FoldsOnlyLetters(c);
  }

  /** A range without letters is not affected by the `i` flag. */
  lemma InNonLetterRange(r: ClassItem, c: char, ignoreCase: bool)
    requires r.hi < 'A' || ('Z' < r.lo && r.hi < 'a') || 'z' < r.lo
    ensures InRange(r, c, ignoreCase) <==> r.lo <= c <= r.hi
  {
    FoldsOnlyLetters(c);
  }

  predicate AllInClass(items: seq<ClassItem>, s: string, ignoreCase: bool)
  {
    forall i :: 0 <= i < |s| ==> InClass(items, s[i], ignoreCase)
  }

  predicate CountAllowed(a: Atom, k: nat)
  {
    a.min <= k && (a.max.Some? ==> k <= a.max.value)
  }

  /** `s` splits into consecutive pieces, one per atom, each a permitted number of class characters. */
  predicate MatchesAtoms(atoms: seq<Atom>, s: string, ignoreCase: bool)
    decreases |atoms|
  {
    if atoms == [] then s == []
    else exists k :: 0 <= k <= |s| && CountAllowed(atoms[0], k)
                     && AllInClass(atoms[0].items, s[..k], ignoreCase)
                     && MatchesAtoms(atoms[1..], s[k..], ignoreCase)
  }

  /** `p.test(s)` for an expression anchored at both ends. */
  predicate Matches(p: Pattern, s: string)
  {
    MatchesAtoms(p.atoms, s, p.ignoreCase)
  }

  /** `/^[0-9]{9,10}$/` */
  const PhonePattern: Pattern := Pattern([Repeat([Range('0', '9')], 9, Some(10))], false)

  const EmailLocalClass: seq<ClassItem> :=
    [Range('A', 'Z'), Range('0', '9'), Range('.', '.'), Range('_', '_'), Range('%', '%'), Range('+', '+'), Range('-', '-')]
  const EmailDomainClass: seq<ClassItem> := [Range('A', 'Z'), Range('0', '9'), Range('.', '.'), Range('-', '-')]
  const EmailTopLevelClass: seq<ClassItem> := [Range('A', 'Z')]

  const EmailAtoms: seq<Atom> := [
    Repeat(EmailLocalClass, 1, None),
    Repeat([Range('@', '@')], 1, Some(1)),
    Repeat(EmailDomainClass, 1, None),
    Repeat([Range('.', '.')], 1, Some(1)),
    Repeat(EmailTopLevelClass, 2, None)
  ]

  /** `/^[A-Z0-9._%+-]+@[A-Z0-9.-]+\.[A-Z]{2,}$/i` */
  const EmailPattern: Pattern := Pattern(EmailAtoms, true)

  /** A last atom has to consume the whole rest of the string. */
  lemma {:induction false} MatchesLastAtom(atoms: seq<Atom>, s: string, ignoreCase: bool)
    requires |atoms| == 1
    ensures MatchesAtoms(atoms, s, ignoreCase) <==>
            CountAllowed(atoms[0], |s|) && AllInClass(atoms[0].items, s, ignoreCase)
  {
    if CountAllowed(atoms[0], |s|) && AllInClass(atoms[0].items, s, ignoreCase) {
      assert s[..|s|] == s;
      assert MatchesAtoms(atoms[1..], s[|s|..], ignoreCase);
    }
    if MatchesAtoms(atoms, s, ignoreCase) {
      var k :| 0 <= k <= |s| && CountAllowed(atoms[0], k)
               && AllInClass(atoms[0].items, s[..k], ignoreCase)
               && MatchesAtoms(atoms[1..], s[k..], ignoreCase);
      assert k == |s| && s[..k] == s;
    }
  }

  /** An atom for exactly one occurrence of the non-letter `c`. */
  lemma {:induction false} MatchesOneChar(atoms: seq<Atom>, c: char, s: string, ignoreCase: bool)
    requires |atoms| >= 1 && atoms[0] == Repeat([Range(c, c)], 1, Some(1))
    requires !('A' <= c <= 'Z') && !('a' <= c <= 'z')
    ensures MatchesAtoms(atoms, s, ignoreCase) <==>
            |s| >= 1 && s[0] == c && MatchesAtoms(atoms[1..], s[1..], ignoreCase)
  {
    if |s| >= 1 && s[0] == c && MatchesAtoms(atoms[1..], s[1..], ignoreCase) {
      assert InRange(Range(c, c), s[..1][0], ignoreCase);
      assert AllInClass(atoms[0].items, s[..1], ignoreCase);
    }
    if MatchesAtoms(atoms, s, ignoreCase) {
      var k :| 0 <= k <= |s| && CountAllowed(atoms[0], k)
               && AllInClass(atoms[0].items, s[..k], ignoreCase)
               && MatchesAtoms(atoms[1..], s[k..], ignoreCase);
      assert k == 1 && s[..k][0] == s[0];
      assert InClass([Range(c, c)], s[0], ignoreCase);
      FoldsOnlyLetters(s[0]);
    }
  }

  /** The string with every ASCII letter in upper case. */
  function UpperString(s: string): (u: string)
    ensures |u| == |s|
    ensures forall i :: 0 <= i < |s| ==> u[i] == Upper(s[i])
  {
    seq(|s|, i requires 0 <= i < |s| => Upper(s[i]))
  }

  /** Under the `i` flag a character and its upper-case form fall in the same ranges. */
  lemma InRangeIgnoresCase(r: ClassItem, c: char)
    ensures InRange(r, c, true) <==> InRange(r, Upper(c), true)
  {
    FoldsOnlyLetters(c);
    if 'a' <= c <= 'z' {
      assert Lower(Upper(c)) == c;
    } else if 'A' <= c <= 'Z' {
      assert Upper(c) == c;
    }
  }

  /** The `i` flag: a pattern accepts a string exactly when it accepts its upper-case form. */
  lemma {:induction false} MatchesIgnoresCase(atoms: seq<Atom>, s: string)
    ensures MatchesAtoms(atoms, s, true) <==> MatchesAtoms(atoms, UpperString(s), true)
    decreases |atoms|
  {
    if atoms != [] {
      var u := UpperString(s);
      forall k | 0 <= k <= |s|
        ensures AllInClass(atoms[0].items, s[..k], true) <==> AllInClass(atoms[0].items, u[..k], true)
        ensures MatchesAtoms(atoms[1..], s[k..], true) <==> MatchesAtoms(atoms[1..], u[k..], true)
      {
        assert UpperString(s[k..]) == u[k..];
        MatchesIgnoresCase(atoms[1..], s[k..]);
        forall i | 0 <= i < k
          ensures InClass(atoms[0].items, s[i], true) <==> InClass(atoms[0].items, u[i], true)
        {
          forall r ensures InRange(r, s[i], true) <==> InRange(r, u[i], true) {
            InRangeIgnoresCase(r, s[i]);
          }
        }
        assert forall i :: 0 <= i < k ==> s[..k][i] == s[i] && u[..k][i] == u[i];
      }
      if MatchesAtoms(atoms, s, true) {
        var k :| 0 <= k <= |s| && CountAllowed(atoms[0], k)
                 && AllInClass(atoms[0].items, s[..k], true)
                 && MatchesAtoms(atoms[1..], s[k..], true);
        assert AllInClass(atoms[0].items, u[..k], true);
      }
      if MatchesAtoms(atoms, u, true) {
        var k :| 0 <= k <= |u| && CountAllowed(atoms[0], k)
                 && AllInClass(atoms[0].items, u[..k], true)
                 && MatchesAtoms(atoms[1..], u[k..], true);
        assert AllInClass(atoms[0].items, s[..k], true);
      }
    }
  }
}

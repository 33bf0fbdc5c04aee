/**
 * The anchored regular expressions the site handlers use to classify URLs
 * (`^...$` built from literals, `.`, `[^/]`, `\d` and `+`), with the meaning the
 * Rust regex crate gives them, and lemmas that read them back as plain string facts.
 */
module Regex {
  import opened Wrappers
  import opened Seqs
  import opened Text

  /** A one-character class. */
  datatype Class =
    | Char(c: char)   // a literal character (an escaped one such as `\.` included)
    | AnyButNewline   // `.`: any character except '\n'
    | NotSlash        // `[^/]`
    | Digit           // `\d`: a Unicode decimal digit

  predicate InClass(k: Class, c: char) {
    match k
    case Char(d) => c == d
    case AnyButNewline => c != '\n'
    case NotSlash => c != '/'
    case Digit => IsDecimalDigit(c)
  }

  /** A class taken once, or one or more times (`+`). */
  datatype Term = One(k: Class) | Plus(k: Class)

  /** The whole of s matches the terms of p in order: the pattern `^p$`. */
  predicate Matches(p: seq<Term>, s: string)
    decreases |s|, |p|
  {
    if p == [] then s == []
    else
      && |s| > 0
      && InClass(p[0].k, s[0])
      && match p[0]
         case One(_) => Matches(p[1..], s[1..])
         case Plus(_) => Matches(p[1..], s[1..]) || Matches(p, s[1..])
  }

  /** A literal string, character by character. */
  function Lit(w: string): (p: seq<Term>)
    ensures |p| == |w| && forall i :: 0 <= i < |w| ==> p[i] == One(Char(w[i]))
  {
    seq(|w|, i requires 0 <= i < |w| => One(Char(w[i])))
  }

  predicate SlashFree(s: string) {
    forall i :: 0 <= i < |s| ==> s[i] != '/'
  }

  /** A literal prefix matches exactly the strings that start with it. */
  lemma {:induction false} MatchesLit(w: string, q: seq<Term>, s: string)
    ensures Matches(Lit(w) + q, s) <==> |w| <= |s| && s[..|w|] == w && Matches(q, s[|w|..])
    decreases |w|
  {
    var p := Lit(w) + q;
    if w != [] {
      assert p[0] == One(Char(w[0]));
      assert p[1..] == Lit(w[1..]) + q;
      if |s| > 0 {
        MatchesLit(w[1..], q, s[1..]);
        if |w| <= |s| {
          assert s[1..][|w| - 1..] == s[|w|..];
          assert s[..|w|] == [s[0]] + s[1..][..|w| - 1];
        }
      }
    } else {
      assert p == q;
    }
  }

  lemma MatchesOne(k: Class, q: seq<Term>, s: string)
    ensures Matches([One(k)] + q, s) <==> |s| > 0 && InClass(k, s[0]) && Matches(q, s[1..])
  {
    assert ([One(k)] + q)[1..] == q;
  }

  /** `^k+$` matches exactly the non-empty strings whose every character is in k. */
  lemma {:induction false} MatchesPlusAll(k: Class, s: string)
    ensures Matches([Plus(k)], s) <==> |s| > 0 && forall i :: 0 <= i < |s| ==> InClass(k, s[i])
    decreases |s|
  {
    assert [Plus(k)][1..] == [];
    if |s| > 1 {
      MatchesPlusAll(k, s[1..]);
      assert forall i :: 1 <= i < |s| ==> s[i] == s[1..][i - 1];
    }
  }

  /** `[^/]+/` followed by q matches a slash-free segment, its '/', and then q. */
  lemma {:induction false} SegmentSlashIntro(a: string, b: string, q: seq<Term>)
    requires a != [] && SlashFree(a) && Matches(q, b)
    ensures Matches([Plus(NotSlash), One(Char('/'))] + q, a + "/" + b)
    decreases |a|
  {
    var p := [Plus(NotSlash), One(Char('/'))] + q;
    var s := a + "/" + b;
    assert s[0] == a[0];
    assert s[1..] == a[1..] + "/" + b;
    if |a| == 1 {
      assert p[1..] == [One(Char('/'))] + q;
      MatchesOne(Char('/'), q, s[1..]);
      assert s[1..][1..] == b;
    } else {
      SegmentSlashIntro(a[1..], b, q);
    }
  }

  /** Conversely, a match of `[^/]+/` then q splits at the first '/'. */
  lemma {:induction false} SegmentSlashElim(q: seq<Term>, s: string) returns (k: nat)
    requires Matches([Plus(NotSlash), One(Char('/'))] + q, s)
    ensures 0 < k < |s| && s[k] == '/' && SlashFree(s[..k]) && Matches(q, s[k + 1..])
    decreases |s|
  {
    var p := [Plus(NotSlash), One(Char('/'))] + q;
    assert p[1..] == [One(Char('/'))] + q;
    if Matches(p[1..], s[1..]) {
      MatchesOne(Char('/'), q, s[1..]);
      k := 1;
      assert s[1..][1..] == s[2..];
    } else {
      var k' := SegmentSlashElim(q, s[1..]);
      k := k' + 1;
      assert s[1..][k' + 1..] == s[k + 1..];
      assert s[..k] == [s[0]] + s[1..][..k'];
    }
  }

  /** Two slash-free prefixes ended by '/' end at the same place: the first '/'. */
  lemma FirstSlashUnique(s: string, k1: nat, k2: nat)
    requires k1 < |s| && s[k1] == '/' && SlashFree(s[..k1])
    requires k2 < |s| && s[k2] == '/' && SlashFree(s[..k2])
    ensures k1 == k2
  {
  }

  predicate IsSlash(c: char) {
    c == '/'
  }

  /**
   * s is n non-empty slash-free segments, each ended by '/'; read off by
   * cutting s at its first '/'.
   */
  predicate Segments(s: string, n: nat)
    decreases n
  {
    if n == 0 then s == []
    else match FindIndex(IsSlash, s)
      case None => false
      case Some(k) => k > 0 && Segments(s[k + 1..], n - 1)
  }

  /** `[^/]+/` repeated n times. */
  function SegmentsPattern(n: nat): seq<Term> {
    if n == 0 then [] else [Plus(NotSlash), One(Char('/'))] + SegmentsPattern(n - 1)
  }

  /** The repeated pattern matches exactly the strings made of n segments. */
  lemma {:induction false} MatchesSegments(n: nat, s: string)
    ensures Matches(SegmentsPattern(n), s) <==> Segments(s, n)
    decreases n, 1
  {
    if n > 0 {
      if Matches(SegmentsPattern(n), s) {
        SegmentsOfMatch(n, s);
      }
      if Segments(s, n) {
        MatchOfSegments(n, s);
      }
    }
  }

  lemma {:induction false} SegmentsOfMatch(n: nat, s: string)
    requires n > 0 && Matches(SegmentsPattern(n), s)
    ensures Segments(s, n)
    decreases n, 0
  {
    var q := SegmentsPattern(n - 1);
    assert SegmentsPattern(n) == [Plus(NotSlash), One(Char('/'))] + q;
    var k := SegmentSlashElim(q, s);
    MatchesSegments(n - 1, s[k + 1..]);
    var j := FindIndex(IsSlash, s);
    assert IsSlash(s[k]);
    assert j.Some?;
    assert j.value == k;
  }

  lemma {:induction false} MatchOfSegments(n: nat, s: string)
    requires n > 0 && Segments(s, n)
    ensures Matches(SegmentsPattern(n), s)
    decreases n, 0
  {
    var q := SegmentsPattern(n - 1);
    assert SegmentsPattern(n) == [Plus(NotSlash), One(Char('/'))] + q;
    var k := FindIndex(IsSlash, s).value;
    MatchesSegments(n - 1, s[k + 1..]);
    assert SlashFree(s[..k]) by {
      forall i | 0 <= i < k
        ensures s[..k][i] != '/'
      {
        assert !IsSlash(s[i]);
      }
    }
    assert s == s[..k] + "/" + s[k + 1..];
    SegmentSlashIntro(s[..k], s[k + 1..], q);
  }

  /** A string is made of one number of segments only. */
  lemma {:induction false} SegmentsDisjoint(s: string, m: nat, n: nat)
    requires m != n
    ensures !(Segments(s, m) && Segments(s, n))
    decreases n
  {
    if m > 0 && n > 0 && Segments(s, m) && Segments(s, n) {
      var k := FindIndex(IsSlash, s).value;
      SegmentsDisjoint(s[k + 1..], m - 1, n - 1);
    }
  }

  /** A literal prefix followed by n segments. */
  lemma MatchesPrefixed(w: string, n: nat, s: string)
    ensures Matches(Lit(w) + SegmentsPattern(n), s) <==>
      |w| <= |s| && s[..|w|] == w && Segments(s[|w|..], n)
  {
    MatchesLit(w, SegmentsPattern(n), s);
    if |w| <= |s| {
      MatchesSegments(n, s[|w|..]);
    }
  }

  /** A literal pattern for `origin + mid` on `origin + href` is the pattern for mid on href. */
  lemma MatchesAfterOrigin(origin: string, mid: string, q: seq<Term>, href: string)
    ensures Matches(Lit(origin + mid) + q, origin + href) <==> Matches(Lit(mid) + q, href)
  {
    var w := origin + mid;
    var s := origin + href;
    MatchesLit(w, q, s);
    MatchesLit(mid, q, href);
    if |w| <= |s| {
      assert s[..|w|] == origin + href[..|mid|];
      assert s[|w|..] == href[|mid|..];
      if s[..|w|] == w {
        assert href[..|mid|] == s[..|w|][|origin|..] == mid;
      }
    }
  }
}

/**
 * `generateSlug`, the URL key the admin tabs derive from a name or title:
 * lower-case, canonical decomposition (NFD), removal of the combining marks
 * U+0300..U+036F, each run of characters outside `[a-z0-9]` replaced by one
 * `-`, and leading/trailing hyphens removed.  The clinics tab trims with
 * `/^-+|-+$/g` (every leading and trailing hyphen), the doctors and news
 * tabs with `/(^-|-$)/g` (at most one at each end); after the collapse step
 * both give the same string.
 *
 * Decomposition covers the precomposed lower-case Latin-1 letters; case
 * mapping is the one in module Text.
 */
module Slug {
  import Text
  import Seqs

  predicate IsAlnum(c: char)
  {
    'a' <= c <= 'z' || '0' <= c <= '9'
  }

  /** A combining diacritical mark, U+0300..U+036F. */
  predicate IsMark(c: char)
  {
    '\U{0300}' <= c <= '\U{036F}'
  }

  /** Canonical decomposition of one character. */
  function NfdChar(c: char): (r: string)
    ensures 1 <= |r| <= 2
    ensures |r| == 2 ==> IsAlnum(r[0]) && IsMark(r[1])
    ensures |r| == 1 ==> r[0] == c
    ensures IsAlnum(c) || c == '-' ==> r == [c]
    ensures c < 'à' ==> r == [c]
  {
    if c == 'à' then ['a', '\U{0300}'] else if c == 'á' then ['a', '\U{0301}']
    else if c == 'â' then ['a', '\U{0302}'] else if c == 'ã' then ['a', '\U{0303}']
    else if c == 'ä' then ['a', '\U{0308}'] else if c == 'å' then ['a', '\U{030A}']
    else if c == 'ç' then ['c', '\U{0327}']
    else if c == 'è' then ['e', '\U{0300}'] else if c == 'é' then ['e', '\U{0301}']
    else if c == 'ê' then ['e', '\U{0302}'] else if c == 'ë' then ['e', '\U{0308}']
    else if c == 'ì' then ['i', '\U{0300}'] else if c == 'í' then ['i', '\U{0301}']
    else if c == 'î' then ['i', '\U{0302}'] else if c == 'ï' then ['i', '\U{0308}']
    else if c == 'ñ' then ['n', '\U{0303}']
    else if c == 'ò' then ['o', '\U{0300}'] else if c == 'ó' then ['o', '\U{0301}']
    else if c == 'ô' then ['o', '\U{0302}'] else if c == 'õ' then ['o', '\U{0303}']
    else if c == 'ö' then ['o', '\U{0308}']
    else if c == 'ù' then ['u', '\U{0300}'] else if c == 'ú' then ['u', '\U{0301}']
    else if c == 'û' then ['u', '\U{0302}'] else if c == 'ü' then ['u', '\U{0308}']
    else if c == 'ý' then ['y', '\U{0301}'] else if c == 'ÿ' then ['y', '\U{0308}']
    else [c]
  }

  /** `s.normalize("NFD")`. */
  function Nfd(s: string): (r: string)
    ensures |s| <= |r| <= 2 * |s|
  {
    if s == [] then [] else NfdChar(s[0]) + Nfd(s[1..])
  }

  /** Removal of every combining diacritical mark (U+0300..U+036F). */
  function StripMarks(s: string): (r: string)
    ensures |r| <= |s|
    ensures forall i :: 0 <= i < |r| ==> !IsMark(r[i])
  {
    if s == [] then [] else (if IsMark(s[0]) then [] else [s[0]]) + StripMarks(s[1..])
  }

  /** Only characters of `[a-z0-9-]`. */
  predicate SlugChars(s: string)
  {
    forall i :: 0 <= i < |s| ==> IsAlnum(s[i]) || s[i] == '-'
  }

  /** No two adjacent hyphens. */
  predicate NoDoubleHyphen(s: string)
  {
    forall i :: 0 <= i < |s| - 1 ==> s[i] != '-' || s[i + 1] != '-'
  }

  /** The shape of a generated slug: `[a-z0-9]+(-[a-z0-9]+)*`, or empty. */
  predicate IsSlug(s: string)
  {
    SlugChars(s) && NoDoubleHyphen(s) && (s != [] ==> s[0] != '-' && s[|s| - 1] != '-')
  }

  /** The suffix of `s` after its leading run of characters outside `[a-z0-9]`. */
  function SkipRun(s: string): (r: string)
    ensures |r| <= |s| && r == s[|s| - |r|..]
    ensures r != [] ==> IsAlnum(r[0])
  {
    if s != [] && !IsAlnum(s[0]) then SkipRun(s[1..]) else s
  }

  /** `s.replace(/[^a-z0-9]+/g, "-")`. */
  function Collapse(s: string): (r: string)
    ensures |r| <= |s|
    ensures SlugChars(r) && NoDoubleHyphen(r)
    ensures s != [] && IsAlnum(s[0]) ==> r != [] && r[0] == s[0]
    ensures s != [] ==> r != []
    decreases |s|
  {
    if s == [] then []
    else if IsAlnum(s[0]) then [s[0]] + Collapse(s[1..])
    else
      var rest := SkipRun(s[1..]);
      var t := Collapse(rest);
      assert t != [] ==> t[0] != '-';
      "-" + t
  }

  /** `s.replace(/^-+|-+$/g, "")`: every leading and every trailing hyphen removed. */
  function TrimAll(s: string): (r: string)
    decreases |s|
  {
    if s != [] && s[0] == '-' then TrimAll(s[1..])
    else if s != [] && s[|s| - 1] == '-' then TrimAll(s[..|s| - 1])
    else s
  }

  /** `s.replace(/(^-|-$)/g, "")`: at most one hyphen removed at each end. */
  function TrimOne(s: string): (r: string)
  {
    var t := if s != [] && s[0] == '-' then s[1..] else s;
    if t != [] && t[|t| - 1] == '-' then t[..|t| - 1] else t
  }

  /** `generateSlug` of the clinics tab. */
  function GenerateSlug(name: string): string
  {
    TrimAll(Collapse(StripMarks(Nfd(Text.Lower(name)))))
  }

  /** `generateSlug` of the doctors and news tabs. */
  function GenerateSlugOneHyphen(name: string): string
  {
    TrimOne(Collapse(StripMarks(Nfd(Text.Lower(name)))))
  }

  // ----- shape -----

  lemma {:induction false} TrimAllShape(s: string)
    requires SlugChars(s) && NoDoubleHyphen(s)
    ensures IsSlug(TrimAll(s))
    ensures exists i, j :: 0 <= i <= j <= |s| && TrimAll(s) == s[i..j]
    decreases |s|
  {
    if s != [] && s[0] == '-' {
      TrimAllShape(s[1..]);
      var i, j :| 0 <= i <= j <= |s[1..]| && TrimAll(s[1..]) == s[1..][i..j];
      assert TrimAll(s) == s[i + 1..j + 1];
    } else if s != [] && s[|s| - 1] == '-' {
      var t := s[..|s| - 1];
      TrimAllShape(t);
      var i, j :| 0 <= i <= j <= |t| && TrimAll(t) == t[i..j];
      assert TrimAll(s) == s[i..j];
    } else {
      assert TrimAll(s) == s[0..|s|];
    }
  }

  /** Every generated slug has the slug shape. */
  lemma GenerateSlugIsSlug(name: string)
    ensures IsSlug(GenerateSlug(name))
  {
    TrimAllShape(Collapse(StripMarks(Nfd(Text.Lower(name)))));
  }

  // ----- fixed points -----

  lemma {:induction false} NfdFixesSlugChars(s: string)
    requires SlugChars(s)
    ensures Nfd(s) == s
  {
    if s != [] {
      assert IsAlnum(s[0]) || s[0] == '-';
      NfdFixesSlugChars(s[1..]);
    }
  }

  lemma {:induction false} StripMarksFixesSlugChars(s: string)
    requires SlugChars(s)
    ensures StripMarks(s) == s
  {
    if s != [] {
      assert !IsMark(s[0]);
      StripMarksFixesSlugChars(s[1..]);
    }
  }

  lemma TailKeepsShape(s: string)
    requires s != [] && SlugChars(s) && NoDoubleHyphen(s)
    ensures SlugChars(s[1..]) && NoDoubleHyphen(s[1..])
  {
    assert forall i :: 0 <= i < |s| - 1 ==> s[1..][i] == s[i + 1];
  }

  /** In slug text a hyphen is followed by nothing or by a letter or digit. */
  lemma HyphenThenAlnum(s: string)
    requires s != [] && !IsAlnum(s[0]) && SlugChars(s) && NoDoubleHyphen(s)
    ensures SkipRun(s[1..]) == s[1..]
  {
    if |s| > 1 {
      assert s[0] == '-' && s[1] != '-';
      assert IsAlnum(s[1..][0]);
    }
  }

  lemma {:induction false} CollapseFixes(s: string)
    requires SlugChars(s) && NoDoubleHyphen(s)
    ensures Collapse(s) == s
    decreases |s|
  {
    if s != [] {
      var tail := s[1..];
      TailKeepsShape(s);
      CollapseFixes(tail);
      if IsAlnum(s[0]) {
        assert Collapse(s) == [s[0]] + tail;
      } else {
        HyphenThenAlnum(s);
        assert Collapse(s) == "-" + tail;
      }
      assert s == [s[0]] + tail;
    }
  }

  lemma SlugFixesTrimAll(s: string)
    requires IsSlug(s)
    ensures TrimAll(s) == s
  {
  }

  /** A string that already has the slug shape is its own slug. */
  lemma SlugFixesSlugs(s: string)
    requires IsSlug(s)
    ensures GenerateSlug(s) == s
  {
    assert Text.Lower(s) == s;
    NfdFixesSlugChars(s);
    StripMarksFixesSlugChars(s);
    CollapseFixes(s);
  }

  /** Slugging a slug changes nothing. */
  lemma GenerateSlugIdempotent(name: string)
    ensures GenerateSlug(GenerateSlug(name)) == GenerateSlug(name)
  {
    GenerateSlugIsSlug(name);
    SlugFixesSlugs(GenerateSlug(name));
  }

  // ----- the two trimming variants -----

  lemma {:induction false} TrimOneIsTrimAll(s: string)
    requires NoDoubleHyphen(s)
    ensures TrimOne(s) == TrimAll(s)
  {
    var t := if s != [] && s[0] == '-' then s[1..] else s;
    assert TrimAll(s) == TrimAll(t);
    assert t != [] ==> t[0] != '-';
    if t != [] && t[|t| - 1] == '-' {
      var u := t[..|t| - 1];
      assert u != [] ==> u[0] != '-' && u[|u| - 1] != '-';
      assert TrimAll(u) == u;
    }
  }

  /** Trimming one hyphen or all of them gives the same slug for every name. */
  lemma SlugVariantsAgree(name: string)
    ensures GenerateSlugOneHyphen(name) == GenerateSlug(name)
  {
    TrimOneIsTrimAll(Collapse(StripMarks(Nfd(Text.Lower(name)))));
  }

  lemma {:induction false} NfdAppend(a: string, b: string)
    ensures Nfd(a + b) == Nfd(a) + Nfd(b)
  {
    if a == [] {
      assert a + b == b;
    } else {
      var ab, t := a + b, a[1..];
      var h := NfdChar(a[0]);
      assert ab[0] == a[0] && ab[1..] == t + b;
      NfdAppend(t, b);
      assert Nfd(ab) == h + Nfd(t + b);
      assert Nfd(a) == h + Nfd(t);
      assert h + (Nfd(t) + Nfd(b)) == (h + Nfd(t)) + Nfd(b);
    }
  }
}

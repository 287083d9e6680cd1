/**
 * The string operations of the JavaScript runtime that the components use:
 * `toLowerCase`, `toUpperCase`, `includes`, `startsWith`, `trim() === ""`,
 * `replace(/\D/g, "")`, `split(sep)` and `join(sep)`.
 *
 * Case mapping covers ASCII and the Latin-1 letters (plus `ß`, whose upper
 * case is the two letters `SS`, `ÿ`, whose upper case `Ÿ` lies outside
 * Latin-1, and the micro sign `µ`, whose upper case is the Greek capital mu
 * `Μ`); every other character is left unchanged.
 */
module Text {
  import opened Wrappers
  import Seqs

  // ----- case mapping -----

  function LowerChar(c: char): char
  {
    if 'A' <= c <= 'Z' || ('À' <= c <= 'Þ' && c != '×') then (c as int + 32) as char else c
  }

  /** `s.toLowerCase()`. */
  function Lower(s: string): (r: string)
    ensures |r| == |s|
    ensures forall i :: 0 <= i < |s| ==> r[i] == LowerChar(s[i])
  {
    seq(|s|, i requires 0 <= i < |s| => LowerChar(s[i]))
  }

  /** The upper case of one character; `ß` becomes two characters and the micro sign the Greek capital mu. */
  function UpperChar(c: char): (r: string)
    ensures |r| >= 1
  {
    if 'a' <= c <= 'z' || ('à' <= c <= 'þ' && c != '÷') then [(c as int - 32) as char]
    else if c == 'ÿ' then ['Ÿ']
    else if c == 'ß' then ['S', 'S']
    else if c == 'µ' then ['\U{039C}']
    else [c]
  }

  /** `s.toUpperCase()`. */
  function Upper(s: string): (r: string)
    ensures |r| >= |s|
  {
    if s == [] then [] else UpperChar(s[0]) + Upper(s[1..])
  }

  lemma {:induction false} UpperAppend(a: string, b: string)
    ensures Upper(a + b) == Upper(a) + Upper(b)
  {
    if a == [] {
      assert a + b == b;
    } else {
      assert (a + b)[1..] == a[1..] + b;
      UpperAppend(a[1..], b);
    }
  }

  // ----- searching -----

  /** `s.startsWith(prefix)`. */
  predicate StartsWith(s: string, prefix: string)
  {
    |prefix| <= |s| && s[..|prefix|] == prefix
  }

  /** `sub` occurs in `s` starting at index `i`. */
  predicate OccursAt(s: string, sub: string, i: int)
  {
    0 <= i && i + |sub| <= |s| && s[i..i + |sub|] == sub
  }

  /** `s.includes(sub)`: `sub` occurs somewhere in `s`. */
  predicate Contains(s: string, sub: string)
  {
    exists i :: 0 <= i <= |s| - |sub| && OccursAt(s, sub, i)
  }

  /** Every string includes the empty string, so an empty search term matches everything. */
  lemma ContainsEmpty(s: string)
    ensures Contains(s, "")
  {
    assert OccursAt(s, "", 0);
  }

  lemma ContainsItself(s: string)
    ensures Contains(s, s)
  {
    assert OccursAt(s, s, 0);
  }

  lemma OccursAtTail(s: string, sub: string, i: int)
    requires s != [] && i >= 1
    ensures OccursAt(s, sub, i) <==> OccursAt(s[1..], sub, i - 1)
  {
    if i + |sub| <= |s| {
      var t := s[1..];
      var a, b := s[i..i + |sub|], t[i - 1..i - 1 + |sub|];
      assert |a| == |b|;
      forall k | 0 <= k < |a| ensures a[k] == b[k] {
        assert a[k] == s[i + k] && b[k] == t[i - 1 + k];
      }
      assert a == b;
    }
  }

  lemma OccursAtPrefix(s: string, sub: string, n: int, j: int)
    requires 0 <= n <= |s|
    requires j + |sub| <= n
    ensures OccursAt(s[..n], sub, j) <==> OccursAt(s, sub, j)
  {
    if 0 <= j {
      assert s[..n][j..j + |sub|] == s[j..j + |sub|];
    }
  }

  /** The first index at which `sep` occurs in `s`, if any (`s.indexOf(sep)`). */
  function IndexOf(s: string, sep: string): (r: Option<nat>)
    requires sep != []
    ensures r.Some? ==> OccursAt(s, sep, r.value)
    ensures r.Some? ==> forall j :: 0 <= j < r.value ==> !OccursAt(s, sep, j)
    ensures r.None? ==> !Contains(s, sep)
    decreases |s|
  {
    if |s| < |sep| then None
    else if s[..|sep|] == sep then
      assert OccursAt(s, sep, 0);
      Some(0)
    else
      var t := IndexOf(s[1..], sep);
      assert !OccursAt(s, sep, 0);
      if t.None? then
        assert !Contains(s, sep) by {
          forall i | i >= 1 ensures !OccursAt(s, sep, i) {
            OccursAtTail(s, sep, i);
          }
        }
        None
      else
        var k := t.value;
        OccursAtTail(s, sep, k + 1);
        forall j | 1 <= j < k + 1 ensures !OccursAt(s, sep, j) {
          OccursAtTail(s, sep, j);
        }
        Some(k + 1)
  }

  // ----- digits and blanks -----

  predicate IsDigit(c: char)
  {
    '0' <= c <= '9'
  }

  /** `s.replace(/\D/g, "")`: the digits of `s`, in order. */
  function Digits(s: string): (r: string)
    ensures forall c :: c in r ==> IsDigit(c)
  {
    Seqs.Filter(s, IsDigit)
  }

  /** Digits are taken piece by piece: the digits of `a + b` are those of `a`, then those of `b`. */
  lemma DigitsAppend(a: string, b: string)
    ensures Digits(a + b) == Digits(a) + Digits(b)
  {
    Seqs.FilterAppend(a, b, IsDigit);
  }

  /** Stripping non-digits twice is stripping them once. */
  lemma DigitsIdempotent(s: string)
    ensures Digits(Digits(s)) == Digits(s)
  {
    Seqs.FilterKeepsAll(Digits(s), IsDigit);
  }

  /** `c` is white space or a line terminator for `String.prototype.trim`. */
  predicate IsWhitespace(c: char)
  {
    c == ' ' || c == '\t' || c == '\n' || c == '\r' || c == '\U{000B}' || c == '\U{000C}'
    || c == '\U{00A0}' || c == '\U{1680}' || ('\U{2000}' <= c <= '\U{200A}')
    || c == '\U{2028}' || c == '\U{2029}' || c == '\U{202F}' || c == '\U{205F}'
    || c == '\U{3000}' || c == '\U{FEFF}'
  }

  /** `s.trim() === ""`. */
  predicate IsBlank(s: string)
  {
    forall i :: 0 <= i < |s| ==> IsWhitespace(s[i])
  }

  // ----- split and join -----

  /** `s.split(sep)` for a non-empty separator. */
  function Split(s: string, sep: string): (parts: seq<string>)
    requires sep != []
    ensures |parts| >= 1
    decreases |s|
  {
    match IndexOf(s, sep)
    case None => [s]
    case Some(i) => [s[..i]] + Split(s[i + |sep|..], sep)
  }

  /** `parts.join(sep)`. */
  function Join(parts: seq<string>, sep: string): string
  {
    if |parts| == 0 then [] else if |parts| == 1 then parts[0] else parts[0] + sep + Join(parts[1..], sep)
  }

  lemma JoinCons(p: string, rest: seq<string>, sep: string)
    requires rest != []
    ensures Join([p] + rest, sep) == p + sep + Join(rest, sep)
  {
    assert ([p] + rest)[1..] == rest;
  }

  /** Joining the pieces of a split with the same separator gives back the string. */
  lemma {:induction false} JoinSplit(s: string, sep: string)
    requires sep != []
    ensures Join(Split(s, sep), sep) == s
    decreases |s|
  {
    var r := IndexOf(s, sep);
    if r.Some? {
      var i := r.value;
      var rest := s[i + |sep|..];
      assert Split(s, sep) == [s[..i]] + Split(rest, sep);
      JoinSplit(rest, sep);
      JoinCons(s[..i], Split(rest, sep), sep);
      assert s[i..i + |sep|] == sep;
      assert s == s[..i] + sep + rest;
    }
  }

  /** No piece of a split contains the separator. */
  lemma {:induction false} SplitPiecesAvoidSeparator(s: string, sep: string)
    requires sep != []
    ensures forall p :: p in Split(s, sep) ==> !Contains(p, sep)
    decreases |s|
  {
    match IndexOf(s, sep)
    case None =>
    case Some(i) =>
      SplitPiecesAvoidSeparator(s[i + |sep|..], sep);
      assert !Contains(s[..i], sep) by {
        forall j | OccursAt(s[..i], sep, j) ensures false {
          OccursAtPrefix(s, sep, i, j);
        }
      }
  }

  /** Every piece of a split occurs in the string it came from. */
  lemma {:induction false} SplitPiecesOccur(s: string, sep: string)
    requires sep != []
    ensures forall p :: p in Split(s, sep) ==> Contains(s, p)
    decreases |s|
  {
    match IndexOf(s, sep)
    case None =>
      ContainsItself(s);
    case Some(i) =>
      var rest := s[i + |sep|..];
      SplitPiecesOccur(rest, sep);
      assert OccursAt(s, s[..i], 0);
      forall p | p in Split(rest, sep) ensures Contains(s, p) {
        var k :| 0 <= k <= |rest| - |p| && OccursAt(rest, p, k);
        assert s[i + |sep| + k..i + |sep| + k + |p|] == rest[k..k + |p|];
        assert OccursAt(s, p, i + |sep| + k);
      }
  }

  /** Splitting on `c` at its first occurrence: the text before it, then the pieces of the rest. */
  lemma SplitAtFirst(a: string, c: char, b: string)
    requires c !in a
    ensures Split(a + [c] + b, [c]) == [a] + Split(b, [c])
  {
    var s := a + [c] + b;
    assert OccursAt(s, [c], |a|) by {
      assert s[|a|..|a| + 1] == [c];
    }
    forall j | 0 <= j < |a| ensures !OccursAt(s, [c], j) {
      assert s[j..j + 1] == [a[j]];
      assert a[j] in a;
    }
    assert IndexOf(s, [c]) == Some(|a|);
    assert s[..|a|] == a && s[|a| + 1..] == b;
  }

  /** A string without `c` splits into itself alone. */
  lemma SplitWhole(s: string, c: char)
    requires c !in s
    ensures Split(s, [c]) == [s]
  {
    IndexOfAbsent(s, c);
  }

  /** The last piece of `s.split(sep)` (`split(sep).pop()`). */
  function LastPiece(s: string, sep: string): (r: string)
    requires sep != []
  {
    var parts := Split(s, sep);
    parts[|parts| - 1]
  }

  lemma IndexOfAbsent(b: string, c: char)
    requires c !in b
    ensures IndexOf(b, [c]).None?
  {
    forall k | 0 <= k < |b| ensures !OccursAt(b, [c], k) {
      assert b[k..k + 1] == [b[k]];
      assert b[k] in b;
    }
  }

  /** When `c` does not occur in `b`, the last piece of `a + [c] + b` split on `c` is `b`. */
  lemma {:induction false} LastPieceAfter(a: string, c: char, b: string)
    requires c !in b
    ensures LastPiece(a + [c] + b, [c]) == b
    decreases |a|
  {
    var s := a + [c] + b;
    assert OccursAt(s, [c], |a|) by {
      assert s[|a|..|a| + 1] == [c];
    }
    var r := IndexOf(s, [c]);
    var i := r.value;
    assert i <= |a|;
    var rest := s[i + 1..];
    assert Split(s, [c]) == [s[..i]] + Split(rest, [c]);
    if i == |a| {
      assert rest == b;
      IndexOfAbsent(b, c);
      assert Split(rest, [c]) == [b];
    } else {
      var a' := a[i + 1..];
      assert rest == a' + [c] + b;
      LastPieceAfter(a', c, b);
    }
  }

  /** No piece of a split on the character `c` contains `c`. */
  lemma SplitPiecesAvoidChar(s: string, c: char)
    ensures forall p :: p in Split(s, [c]) ==> c !in p
  {
    SplitPiecesAvoidSeparator(s, [c]);
    forall p, k | p in Split(s, [c]) && 0 <= k < |p| ensures p[k] != c {
      assert p[k..k + 1] == [p[k]];
      assert !OccursAt(p, [c], k);
    }
  }

  /** The pieces of a split on `c` contain no `c`, so neither does the last one. */
  lemma LastPieceAvoids(s: string, c: char)
    ensures c !in LastPiece(s, [c])
  {
    var parts := Split(s, [c]);
    SplitPiecesAvoidChar(s, c);
    assert parts[|parts| - 1] in parts;
  }

  /** A string without `c` is its own last piece. */
  lemma LastPieceWhole(s: string, c: char)
    ensures c !in s ==> LastPiece(s, [c]) == s
  {
    if c !in s {
      IndexOfAbsent(s, c);
    }
  }

  // ----- numbers -----

  function DigitChar(d: nat): (c: char)
    requires d < 10
    ensures IsDigit(c)
  {
    ('0' as int + d) as char
  }

  /** The decimal text of a natural number, as a template literal writes it. */
  function Decimal(n: nat): (r: string)
    ensures r != []
    ensures forall i :: 0 <= i < |r| ==> IsDigit(r[i])
  {
    if n < 10 then [DigitChar(n)] else Decimal(n / 10) + [DigitChar(n % 10)]
  }

  /** The number of occurrences of `c` in `s`. */
  function Count(s: string, c: char): nat
  {
    multiset(s)[c]
  }

  /** Splitting on one character gives one more piece than there are separators. */
  lemma {:induction false} SplitCount(s: string, c: char)
    ensures |Split(s, [c])| == Count(s, c) + 1
    decreases |s|
  {
    match IndexOf(s, [c])
    case None =>
      assert c !in s by {
        forall i | 0 <= i < |s| ensures s[i] != c {
          assert s[i..i + 1] == [s[i]];
          assert !OccursAt(s, [c], i);
        }
      }
    case Some(i) =>
      var rest := s[i + 1..];
      SplitCount(rest, c);
      assert s == s[..i] + [c] + rest by {
        assert s[i..i + 1] == [c];
      }
      assert c !in s[..i] by {
        forall j | 0 <= j < i ensures s[..i][j] != c {
          assert s[j..j + 1] == [s[j]];
          assert !OccursAt(s, [c], j);
        }
      }
      assert multiset(s) == multiset(s[..i]) + multiset{c} + multiset(rest);
  }
}

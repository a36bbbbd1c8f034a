/**
 * The Python string built-ins the handler relies on, stated over `seq<char>`:
 * `str.startswith`, `str.strip()`, `str.split(sep)`, `sep.join`, `in` on
 * `str` and the ordering `<` of `str` (code point by code point).
 */
module PyStr {

  /** `s.startswith(prefix)` */
  function StartsWith(s: string, prefix: string): (b: bool)
    ensures b <==> |prefix| <= |s| && s == prefix + s[|prefix|..]
  {
    |prefix| <= |s| && s[..|prefix|] == prefix
  }

  /** `sep` occurs in `s` starting at index `i`. */
  predicate OccursAt(s: string, i: nat, sep: string) {
    i + |sep| <= |s| && s[i..i + |sep|] == sep
  }

  /** `part in s` on `str`: `part` occurs somewhere in `s`. */
  predicate Contains(s: string, part: string) {
    exists i: nat :: i <= |s| && OccursAt(s, i, part)
  }

  /** `part in s` exactly when `s` is some text, then `part`, then some text. */
  lemma ContainsIsSubstring(s: string, part: string)
    ensures Contains(s, part) <==> exists x, y :: s == x + part + y
  {
    if Contains(s, part) {
      var i: nat :| i <= |s| && OccursAt(s, i, part);
      assert s == s[..i] + part + s[i + |part|..];
    }
    if exists x, y :: s == x + part + y {
      var x, y :| s == x + part + y;
      assert OccursAt(s, |x|, part);
    }
  }

  /** Text around a string that contains `part` still contains it. */
  lemma ContainsWithin(x: string, t: string, y: string, part: string)
    requires Contains(t, part)
    ensures Contains(x + t + y, part)
  {
    var i: nat :| i <= |t| && OccursAt(t, i, part);
    assert (x + t + y)[|x| + i..|x| + i + |part|] == t[i..i + |part|];
    assert OccursAt(x + t + y, |x| + i, part);
  }

  /** The characters Python's `str.isspace` accepts, which `str.strip()` removes. */
  predicate IsSpace(c: char) {
    || '\t' <= c <= '\r'
    || '\U{1c}' <= c <= '\U{1f}'
    || c == ' ' || c == '\U{85}' || c == '\U{a0}' || c == '\U{1680}'
    || '\U{2000}' <= c <= '\U{200a}'
    || c == '\U{2028}' || c == '\U{2029}' || c == '\U{202f}' || c == '\U{205f}' || c == '\U{3000}'
  }

  predicate AllSpace(s: string) {
    forall i :: 0 <= i < |s| ==> IsSpace(s[i])
  }

  /** The number of whitespace characters at the front of `s`. */
  function LeadingSpace(s: string): (n: nat)
    ensures n <= |s| && AllSpace(s[..n])
    ensures n < |s| ==> !IsSpace(s[n])
  {
    if s != [] && IsSpace(s[0]) then
      var n := 1 + LeadingSpace(s[1..]);
      assert s[..n] == [s[0]] + s[1..][..n - 1];
      n
    else 0
  }

  /** The number of whitespace characters at the back of `s`. */
  function TrailingSpace(s: string): (n: nat)
    ensures n <= |s| && AllSpace(s[|s| - n..])
    ensures n < |s| ==> !IsSpace(s[|s| - n - 1])
  {
    if s != [] && IsSpace(s[|s| - 1]) then
      var n := 1 + TrailingSpace(s[..|s| - 1]);
      assert s[|s| - n..] == s[..|s| - 1][|s| - n..] + [s[|s| - 1]];
      n
    else 0
  }

  /**
   * `s.strip()`: `s` is leading whitespace, then the result, then trailing
   * whitespace, and the result neither starts nor ends with whitespace.
   */
  function Strip(s: string): (r: string)
    ensures |r| <= |s|
    ensures exists lo :: 0 <= lo && lo + |r| <= |s| && AllSpace(s[..lo]) && s[lo..lo + |r|] == r && AllSpace(s[lo + |r|..])
    ensures r != [] ==> !IsSpace(r[0]) && !IsSpace(r[|r| - 1])
  {
    var lo := LeadingSpace(s);
    if lo == |s| then
      assert AllSpace(s[0..]) by { assert s[0..] == s[..lo]; }
      assert s[0..0] == [];
      ""
    else
      var t := s[lo..];
      var k := TrailingSpace(t);
      assert k < |t| by { assert !IsSpace(t[0]); }
      var r := t[..|t| - k];
      assert s[lo..lo + |r|] == r;
      assert s[lo + |r|..] == t[|t| - k..];
      assert 0 <= lo && lo + |r| <= |s| && AllSpace(s[..lo]) && s[lo..lo + |r|] == r && AllSpace(s[lo + |r|..]);
      assert r[0] == s[lo] && r[|r| - 1] == t[|t| - k - 1];
      r
  }

  /**
   * The part of `s` before the first occurrence of `sep`, or all of `s` when
   * `sep` does not occur.
   */
  function Before(s: string, sep: string): (r: string)
    requires sep != []
    ensures StartsWith(s, r)
    ensures forall j :: 0 <= j < |r| ==> !OccursAt(s, j, sep)
    ensures r == s || OccursAt(s, |r|, sep)
    ensures r == s ==> forall j :: 0 <= j <= |s| ==> !OccursAt(s, j, sep)
  {
    if |s| < |sep| then s
    else if s[..|sep|] == sep then []
    else
      var r := [s[0]] + Before(s[1..], sep);
      assert forall j :: 1 <= j <= |s| ==> (OccursAt(s, j, sep) <==> OccursAt(s[1..], j - 1, sep)) by {
        forall j | 1 <= j <= |s| ensures OccursAt(s, j, sep) <==> OccursAt(s[1..], j - 1, sep) {
          if j + |sep| <= |s| { assert s[j..j + |sep|] == s[1..][j - 1..j - 1 + |sep|]; }
        }
      }
      r
  }

  /**
   * `s.split(sep)`: the pieces of `s` between the non-overlapping occurrences
   * of `sep` found scanning from the left.
   */
  function Split(s: string, sep: string): (pieces: seq<string>)
    requires sep != []
    ensures |pieces| >= 1
    ensures forall i, j :: 0 <= i < |pieces| && 0 <= j <= |pieces[i]| ==> !OccursAt(pieces[i], j, sep)
    decreases |s|
  {
    var head := Before(s, sep);
    if head == s then [s]
    else
      assert forall j :: 0 <= j <= |head| ==> !OccursAt(head, j, sep) by {
        forall j | 0 <= j <= |head| ensures !OccursAt(head, j, sep) {
          if j + |sep| <= |head| {
            assert s[..|head|] == head;
            assert head[j..j + |sep|] == s[j..j + |sep|];
            assert !OccursAt(s, j, sep);
          }
        }
      }
      [head] + Split(s[|head| + |sep|..], sep)
  }

  /** `sep.join(pieces)` */
  function Join(pieces: seq<string>, sep: string): string {
    if |pieces| <= 1 then (if pieces == [] then "" else pieces[0])
    else pieces[0] + sep + Join(pieces[1..], sep)
  }

  /** Every piece occurs in the joined string. */
  lemma {:induction false} JoinContains(pieces: seq<string>, sep: string, i: nat)
    requires i < |pieces|
    ensures Contains(Join(pieces, sep), pieces[i])
  {
    if |pieces| == 1 {
      assert OccursAt(pieces[0], 0, pieces[0]);
    } else {
      var rest := pieces[1..];
      var tail := Join(rest, sep);
      assert Join(pieces, sep) == pieces[0] + sep + tail;
      if i == 0 {
        assert OccursAt(pieces[0], 0, pieces[0]);
        ContainsWithin("", pieces[0], sep + tail, pieces[0]);
        assert "" + pieces[0] + (sep + tail) == pieces[0] + sep + tail;
      } else {
        assert rest[i - 1] == pieces[i];
        JoinContains(rest, sep, i - 1);
        ContainsWithin(pieces[0] + sep, tail, "", pieces[i]);
        assert pieces[0] + sep + tail + "" == pieces[0] + sep + tail;
      }
    }
  }

  /** Joining the pieces of a split with the separator gives back the original string. */
  lemma {:induction false} JoinSplit(s: string, sep: string)
    requires sep != []
    ensures Join(Split(s, sep), sep) == s
    decreases |s|
  {
    var head := Before(s, sep);
    if head != s {
      var rest := s[|head| + |sep|..];
      JoinSplit(rest, sep);
      assert s == head + sep + rest by {
        assert s[..|head|] == head;
        assert s[|head|..|head| + |sep|] == sep;
      }
    }
  }

  /**
   * When `s` starts with `sep`, piece 1 of the split is the text after that
   * first `sep` up to the next occurrence (or the end).
   */
  lemma SplitSecondPiece(s: string, sep: string)
    requires sep != [] && StartsWith(s, sep)
    ensures |Split(s, sep)| >= 2
    ensures Split(s, sep)[1] == Before(s[|sep|..], sep)
  {
  }

  /** Python's `a < b` on `str`: lexicographic by code point. */
  predicate Less(a: string, b: string) {
    if b == [] then false
    else if a == [] then true
    else if a[0] != b[0] then a[0] < b[0]
    else Less(a[1..], b[1..])
  }

  /**
   * `a < b` holds exactly when, after a common prefix of some length `k`,
   * either `a` ends while `b` goes on or `a`'s next code point is the smaller.
   */
  lemma {:induction false} LessIsLexicographic(a: string, b: string)
    ensures Less(a, b) <==>
      exists k :: 0 <= k <= |a| && k < |b| && a[..k] == b[..k] && (k == |a| || a[k] < b[k])
  {
    if a != [] && b != [] && a[0] == b[0] {
      LessIsLexicographic(a[1..], b[1..]);
      if Less(a, b) {
        var k :| 0 <= k <= |a[1..]| && k < |b[1..]| && a[1..][..k] == b[1..][..k] && (k == |a[1..]| || a[1..][k] < b[1..][k]);
        assert a[..k + 1] == [a[0]] + a[1..][..k] && b[..k + 1] == [b[0]] + b[1..][..k];
      }
      if exists k :: 0 <= k <= |a| && k < |b| && a[..k] == b[..k] && (k == |a| || a[k] < b[k]) {
        var k :| 0 <= k <= |a| && k < |b| && a[..k] == b[..k] && (k == |a| || a[k] < b[k]);
        assert a[1..][..k - 1] == a[..k][1..] && b[1..][..k - 1] == b[..k][1..];
        assert Less(a[1..], b[1..]);
      }
    } else if a != [] && b != [] {
      assert a[..0] == b[..0];
    } else if a == [] && b != [] {
      assert a[..0] == b[..0];
    }
  }

  lemma {:induction false} LessIrreflexive(a: string)
    ensures !Less(a, a)
  {
    if a != [] { LessIrreflexive(a[1..]); }
  }

  lemma {:induction false} LessTransitive(a: string, b: string, c: string)
    requires Less(a, b) && Less(b, c)
    ensures Less(a, c)
  {
    if a != [] && a[0] == b[0] && b[0] == c[0] {
      LessTransitive(a[1..], b[1..], c[1..]);
    }
  }

  /** Any two different strings are ordered one way or the other. */
  lemma {:induction false} LessTotal(a: string, b: string)
    requires a != b
    ensures Less(a, b) || Less(b, a)
  {
    if a != [] && b != [] && a[0] == b[0] {
      assert a == [a[0]] + a[1..] && b == [b[0]] + b[1..];
      LessTotal(a[1..], b[1..]);
    }
  }

  /** `!(b < a)`, the order `a <= b`, is transitive. */
  lemma NotLessTransitive(a: string, b: string, c: string)
    requires !Less(b, a) && !Less(c, b)
    ensures !Less(c, a)
  {
  }

  lemma {:induction false} LessAsymmetric(a: string, b: string)
    requires Less(a, b)
    ensures !Less(b, a)
  {
    if a != [] && a[0] == b[0] { LessAsymmetric(a[1..], b[1..]); }
  }

  /** `strip()` is idempotent. */
  lemma StripIdempotent(s: string)
    ensures Strip(Strip(s)) == Strip(s)
  {
  }
}

/**
 Text operations the task store applies to titles and descriptions:
 the whitespace trimming done by the schema's `trim` option, and the
 case folding done by the case-insensitive title match of the duplicate guard.
 */
module Text {

  /** The characters JavaScript's `String.prototype.trim` strips: the
      WhiteSpace and LineTerminator code points of ECMA-262. */
  predicate IsSpace(c: char) {
    || c == '\t' || c == '\n' || c == '\U{000B}' || c == '\U{000C}' || c == '\r'
    || c == ' ' || c == '\U{00A0}' || c == '\U{1680}'
    || ('\U{2000}' <= c <= '\U{200A}')
    || c == '\U{2028}' || c == '\U{2029}' || c == '\U{202F}' || c == '\U{205F}'
    || c == '\U{3000}' || c == '\U{FEFF}'
  }

  predicate AllSpace(s: string) {
    forall i :: 0 <= i < |s| ==> IsSpace(s[i])
  }

  /** Neither end of `s` is whitespace. */
  predicate Trimmed(s: string) {
    s == [] || (!IsSpace(s[0]) && !IsSpace(s[|s| - 1]))
  }

  /** The number of whitespace characters `s` starts with. */
  function Leading(s: string): (n: nat)
    ensures n <= |s|
    ensures forall i :: 0 <= i < n ==> IsSpace(s[i])
    ensures n < |s| ==> !IsSpace(s[n])
    decreases |s|
  {
    if s != [] && IsSpace(s[0]) then
      var n := Leading(s[1..]);
      assert forall i :: 1 <= i < 1 + n ==> s[i] == s[1..][i - 1];
      1 + n
    else 0
  }

  /** The number of whitespace characters `s` ends with. */
  function Trailing(s: string): (n: nat)
    ensures n <= |s|
    ensures forall i :: |s| - n <= i < |s| ==> IsSpace(s[i])
    ensures n < |s| ==> !IsSpace(s[|s| - 1 - n])
    decreases |s|
  {
    if s != [] && IsSpace(s[|s| - 1]) then
      var n := Trailing(s[..|s| - 1]);
      assert forall i :: |s| - 1 - n <= i < |s| - 1 ==> s[i] == s[..|s| - 1][i];
      1 + n
    else 0
  }

  /** `String.prototype.trim`: `s` without its leading and trailing whitespace. */
  function Trim(s: string): (r: string)
    ensures Trimmed(r)
    ensures |r| <= |s|
    ensures r == [] <==> AllSpace(s)
  {
    var a := Leading(s);
    if a == |s| then []
    else
      var b := Trailing(s);
      assert !IsSpace(s[a]);
      s[a..|s| - b]
  }

  /** Trimming is the unique way of peeling whitespace off both ends: any
      text padded with whitespace on either side trims back to itself. */
  lemma TrimPadded(p: string, x: string, q: string)
    requires AllSpace(p) && AllSpace(q) && Trimmed(x)
    ensures Trim(p + x + q) == x
  {
    if x == [] {
      AllSpaceConcat(p, q);
      assert p + x + q == p + q;
    } else {
      var s := p + x + q;
      LeadingPadded(p, x + q);
      assert s == p + (x + q);
      TrailingPadded(p + x, q);
      assert Leading(s) == |p| && Trailing(s) == |q|;
      assert s[|p|..|s| - |q|] == x;
    }
  }

  lemma AllSpaceConcat(a: string, b: string)
    requires AllSpace(a) && AllSpace(b)
    ensures AllSpace(a + b)
  {
    assert forall i :: 0 <= i < |a + b| ==> (a + b)[i] == (if i < |a| then a[i] else b[i - |a|]);
  }

  lemma {:induction false} LeadingPadded(p: string, y: string)
    requires AllSpace(p) && y != [] && !IsSpace(y[0])
    ensures Leading(p + y) == |p|
    decreases |p|
  {
    if p != [] {
      assert (p + y)[1..] == p[1..] + y;
      LeadingPadded(p[1..], y);
    } else {
      assert p + y == y;
    }
  }

  lemma {:induction false} TrailingPadded(x: string, q: string)
    requires AllSpace(q) && x != [] && !IsSpace(x[|x| - 1])
    ensures Trailing(x + q) == |q|
    decreases |q|
  {
    if q != [] {
      assert (x + q)[..|x + q| - 1] == x + q[..|q| - 1];
      TrailingPadded(x, q[..|q| - 1]);
    } else {
      assert x + q == x;
    }
  }

  /** Text without whitespace at either end is its own trim. */
  lemma TrimKeepsTrimmed(x: string)
    requires Trimmed(x)
    ensures Trim(x) == x
    ensures x != [] ==> !AllSpace(x)
  {
    TrimPadded([], x, []);
    assert [] + x + [] == x;
  }

  /** Trimming twice is trimming once. */
  lemma TrimIdempotent(s: string)
    ensures Trim(Trim(s)) == Trim(s)
  {
    TrimKeepsTrimmed(Trim(s));
  }

  /** Case folding of one character: ASCII upper-case letters become lower-case. */
  function FoldChar(c: char): char {
    if 'A' <= c <= 'Z' then (c as int + 32) as char else c
  }

  function Fold(s: string): (r: string)
    ensures |r| == |s|
  {
    seq(|s|, i requires 0 <= i < |s| => FoldChar(s[i]))
  }

  /** Whole-string equality ignoring case: the duplicate guard's anchored,
      case-insensitive title pattern. */
  function SameTitle(a: string, b: string): (r: bool)
    ensures a == b ==> r
    ensures r ==> |a| == |b|
  {
    Fold(a) == Fold(b)
  }

  /** An independent statement of "the same letter up to case". */
  predicate CharsMatch(x: char, y: char) {
    || x == y
    || ('A' <= x <= 'Z' && y as int == x as int + 32)
    || ('A' <= y <= 'Z' && x as int == y as int + 32)
  }

  /** Two titles are the same exactly when they have equal length and match
      character by character up to case. */
  lemma SameTitleIffCharsMatch(a: string, b: string)
    ensures SameTitle(a, b) <==> |a| == |b| && forall i :: 0 <= i < |a| ==> CharsMatch(a[i], b[i])
  {
    if |a| == |b| {
      if SameTitle(a, b) {
        forall i | 0 <= i < |a| ensures CharsMatch(a[i], b[i]) {
          assert Fold(a)[i] == Fold(b)[i];
        }
      }
      if forall i :: 0 <= i < |a| ==> CharsMatch(a[i], b[i]) {
        forall i | 0 <= i < |a| ensures Fold(a)[i] == Fold(b)[i] {
          assert CharsMatch(a[i], b[i]);
        }
      }
    } else {
      assert |Fold(a)| != |Fold(b)|;
    }
  }
}

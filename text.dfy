/**
  The string operations the form validator relies on: `String.prototype.trim`
  and the `\s` / `\S` classes of JavaScript regular expressions. Both use the
  same character set, the ECMAScript WhiteSpace and LineTerminator code points.
 */
module Text {

  /** ECMAScript WhiteSpace (TAB, VT, FF, ZWNBSP and the Zs category) and LineTerminator (LF, CR, LS, PS). */
  predicate IsSpace(c: char) {
    || c == '\t' || c == '\n' || c == '\U{B}' || c == '\U{C}' || c == '\r'
    || c == ' ' || c == '\U{A0}' || c == '\U{1680}'
    || ('\U{2000}' <= c <= '\U{200A}')
    || c == '\U{2028}' || c == '\U{2029}' || c == '\U{202F}' || c == '\U{205F}'
    || c == '\U{3000}' || c == '\U{FEFF}'
  }

  /** Every character of `s` is whitespace (vacuously true of ""). */
  predicate AllSpace(s: string) {
    forall k :: 0 <= k < |s| ==> IsSpace(s[k])
  }

  /** No character of `s` is whitespace: `s` matches `^\S*$`. */
  predicate NoSpace(s: string) {
    forall k :: 0 <= k < |s| ==> !IsSpace(s[k])
  }

  /** The first index at or after `i` that does not hold whitespace, or `|s|`. */
  function SkipSpaces(s: string, i: nat): (r: nat)
    requires i <= |s|
    ensures i <= r <= |s|
    ensures forall k :: i <= k < r ==> IsSpace(s[k])
    ensures r < |s| ==> !IsSpace(s[r])
    decreases |s| - i
  {
    if i < |s| && IsSpace(s[i]) then SkipSpaces(s, i + 1) else i
  }

  /** The index just after the last non-whitespace character in `s[lo..j]`, or `lo` if there is none. */
  function SkipSpacesBack(s: string, lo: nat, j: nat): (r: nat)
    requires lo <= j <= |s|
    ensures lo <= r <= j
    ensures forall k :: r <= k < j ==> IsSpace(s[k])
    ensures lo < r ==> !IsSpace(s[r - 1])
    decreases j
  {
    if lo < j && IsSpace(s[j - 1]) then SkipSpacesBack(s, lo, j - 1) else j
  }

  /** Where the trimmed value of `s` starts. */
  function TrimStart(s: string): nat {
    SkipSpaces(s, 0)
  }

  /** Where the trimmed value of `s` ends. */
  function TrimEnd(s: string): nat {
    SkipSpacesBack(s, TrimStart(s), |s|)
  }

  /**
    `String.prototype.trim`: `s` without its leading and trailing whitespace.
    It is empty exactly when `s` is all whitespace, otherwise it starts and
    ends with a non-whitespace character.
   */
  function Trim(s: string): (r: string)
    ensures r == [] <==> AllSpace(s)
    ensures r != [] ==> !IsSpace(r[0]) && !IsSpace(r[|r| - 1])
  {
    var i, j := TrimStart(s), TrimEnd(s);
    assert AllSpace(s) ==> i == |s|;
    assert i == j ==> AllSpace(s);
    s[i..j]
  }

  /** Every character of `s` outside `[TrimStart(s), TrimEnd(s))` is whitespace. */
  lemma TrimBounds(s: string)
    ensures TrimStart(s) <= TrimEnd(s) <= |s|
    ensures forall k :: 0 <= k < TrimStart(s) ==> IsSpace(s[k])
    ensures forall k :: TrimEnd(s) <= k < |s| ==> IsSpace(s[k])
    ensures Trim(s) == s[TrimStart(s)..TrimEnd(s)]
  {
  }

  /**
    Trim is fully determined by the decomposition of its argument: for any
    whitespace `a` and `b` around a middle `m` that neither starts nor ends
    with whitespace, the trimmed value of `a + m + b` is `m`.
   */
  lemma TrimOf(a: string, m: string, b: string)
    requires AllSpace(a) && AllSpace(b)
    requires m == [] || (!IsSpace(m[0]) && !IsSpace(m[|m| - 1]))
    ensures Trim(a + m + b) == m
  {
    var s := a + m + b;
    if m == [] {
      assert AllSpace(s) by {
        forall k | 0 <= k < |s| ensures IsSpace(s[k]) {
          if k < |a| { assert s[k] == a[k]; } else { assert s[k] == b[k - |a|]; }
        }
      }
    } else {
      var i := TrimStart(s);
      assert s[|a|] == m[0];
      assert i == |a|;
      assert s[|a| + |m| - 1] == m[|m| - 1];
      var j := TrimEnd(s);
      assert j == |a| + |m|;
      assert s[i..j] == m;
    }
  }

  /** Trimming twice is trimming once. */
  lemma TrimIdempotent(s: string)
    ensures Trim(Trim(s)) == Trim(s)
  {
    var r := Trim(s);
    assert [] + r + [] == r;
    TrimOf([], r, []);
  }
}

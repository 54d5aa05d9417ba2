/**
  The e-mail rule of the contact form: the trimmed value must match the
  regular expression `^\S+@\S+\.\S+$`. `Shaped` is the reading of that
  pattern as a decomposition; `Matches` decides it by two scans, and
  `MatchesIffShaped` proves that the two agree on every string.
 */
module Email {
  import opened Text

  /** A non-empty run of non-whitespace characters: what `\S+` matches. */
  ghost predicate Word(w: string) {
    w != [] && NoSpace(w)
  }

  /** `s` matches `^\S+@\S+\.\S+$` in full. */
  ghost predicate Shaped(s: string) {
    exists a, b, c :: Word(a) && Word(b) && Word(c) && s == a + "@" + b + "." + c
  }

  /** The first index at or after `k` that holds `c`, or `|s|` if there is none. */
  function IndexFrom(s: string, c: char, k: nat): (r: nat)
    requires k <= |s|
    ensures k <= r <= |s|
    ensures r < |s| ==> s[r] == c
    ensures forall m :: k <= m < r ==> s[m] != c
    decreases |s| - k
  {
    if k == |s| then k
    else if s[k] == c then k
    else IndexFrom(s, c, k + 1)
  }

  /** The last index below `k` that holds `c`, or -1 if there is none. */
  function LastIndexBelow(s: string, c: char, k: nat): (r: int)
    requires k <= |s|
    ensures -1 <= r < k
    ensures 0 <= r ==> s[r] == c
    ensures forall m :: r < m < k ==> s[m] != c
  {
    if k == 0 then -1
    else if s[k - 1] == c then k - 1
    else LastIndexBelow(s, c, k - 1)
  }

  /**
    Decides the pattern: `s` has no whitespace, an '@' at index 1 or later,
    and a '.' at least two places after that '@' and before the last character.
    The earliest such '@' and the latest such '.' are the ones to try.
   */
  function Matches(s: string): bool {
    && s != []
    && NoSpace(s)
    && var i := IndexFrom(s, '@', 1);
       var j := LastIndexBelow(s, '.', |s| - 1);
       i < |s| && i + 2 <= j
  }

  /** The scan accepts exactly the strings the pattern matches. */
  lemma MatchesIffShaped(s: string)
    ensures Matches(s) <==> Shaped(s)
  {
    if Matches(s) {
      MatchesShaped(s);
    }
    if Shaped(s) {
      ShapedMatches(s);
    }
  }

  lemma MatchesShaped(s: string)
    requires Matches(s)
    ensures Shaped(s)
  {
    var i := IndexFrom(s, '@', 1);
    var j := LastIndexBelow(s, '.', |s| - 1);
    var a, b, c := s[..i], s[i + 1..j], s[j + 1..];
    assert s == a + "@" + b + "." + c by {
      assert s == s[..i] + [s[i]] + s[i + 1..j] + [s[j]] + s[j + 1..];
    }
    NoSpaceSlice(s, 0, i);
    NoSpaceSlice(s, i + 1, j);
    NoSpaceSlice(s, j + 1, |s|);
    assert s[0..i] == a && s[i + 1..j] == b && s[j + 1..|s|] == c;
    assert Word(a) && Word(b) && Word(c);
  }

  lemma ShapedMatches(s: string)
    requires Shaped(s)
    ensures Matches(s)
  {
    var a, b, c :| Word(a) && Word(b) && Word(c) && s == a + "@" + b + "." + c;
    var i0, j0 := |a|, |a| + 1 + |b|;
    assert s[i0] == '@' && s[j0] == '.';
    assert NoSpace(s) by {
      forall k | 0 <= k < |s| ensures !IsSpace(s[k]) {
        if k < i0 { assert s[k] == a[k]; }
        else if k == i0 { }
        else if k < j0 { assert s[k] == b[k - i0 - 1]; }
        else if k == j0 { }
        else { assert s[k] == c[k - j0 - 1]; }
      }
    }
    var i := IndexFrom(s, '@', 1);
    var j := LastIndexBelow(s, '.', |s| - 1);
    assert i <= i0;
    assert j0 <= j;
  }

  /** Every slice of a whitespace-free string is whitespace-free. */
  lemma NoSpaceSlice(s: string, lo: nat, hi: nat)
    requires NoSpace(s) && lo <= hi <= |s|
    ensures NoSpace(s[lo..hi])
  {
    forall k | 0 <= k < hi - lo ensures !IsSpace(s[lo..hi][k]) {
      assert s[lo..hi][k] == s[lo + k];
    }
  }

  /** The pattern needs an '@': "foo" is rejected. */
  lemma RejectsNoAt()
    ensures !Shaped("foo")
  {
    MatchesIffShaped("foo");
  }

  /** The pattern needs a '.' after the '@': "foo@bar" is rejected. */
  lemma RejectsNoDot()
    ensures !Shaped("foo@bar")
  {
    MatchesIffShaped("foo@bar");
  }

  /** The pattern needs a local part before the '@': "@bar.com" is rejected. */
  lemma RejectsNoLocalPart()
    ensures !Shaped("@bar.com")
  {
    assert IndexFrom("@bar.com", '@', 1) == |"@bar.com"|;
    MatchesIffShaped("@bar.com");
  }

  /** "foo@bar.com" is accepted: it is "foo" + "@" + "bar" + "." + "com". */
  lemma AcceptsPlainAddress()
    ensures Shaped("foo@bar.com") && Matches("foo@bar.com")
  {
    assert "foo@bar.com" == "foo" + "@" + "bar" + "." + "com";
    assert Word("foo") && Word("bar") && Word("com");
    MatchesIffShaped("foo@bar.com");
  }

  /** The pattern allows a second '@' (each `\S+` may contain one): "a@b@c.d" is accepted. */
  lemma AcceptsSecondAt()
    ensures Shaped("a@b@c.d")
  {
    assert "a@b@c.d" == "a" + "@" + "b@c" + "." + "d";
    assert Word("a") && Word("b@c") && Word("d");
  }
}

/** The two Python string operations the backend relies on: `str.strip()` with
    no argument and `str.startswith(prefix)`. Strings are sequences of Unicode
    scalar values; unlike Python's `str` they cannot hold a lone surrogate,
    which makes no difference to `strip()` since no surrogate is whitespace.

    Stripping is first defined and proved for an arbitrary set of characters
    to remove, `drop`, and then used with `IsSpace`, the set `strip()` removes
    when called without an argument. */
module PyText {

  /** Python's `str.isspace()` for a single character: the code points whose
      bidirectional class is WS, B or S, or whose general category is Zs. */
  predicate IsSpace(c: char)
  {
    var n := c as int;
    (0x09 <= n <= 0x0D) || (0x1C <= n <= 0x20) || n == 0x85 || n == 0xA0
    || n == 0x1680 || (0x2000 <= n <= 0x200A) || n == 0x2028 || n == 0x2029
    || n == 0x202F || n == 0x205F || n == 0x3000
  }

  /** Every character of `s` is in `drop`. */
  predicate AllIn(drop: char -> bool, s: string)
  {
    forall i :: 0 <= i < |s| ==> drop(s[i])
  }

  /** Neither the first nor the last character of `s` is in `drop`. */
  predicate TrimmedOf(drop: char -> bool, s: string)
  {
    s == [] || (!drop(s[0]) && !drop(s[|s| - 1]))
  }

  /** `str.lstrip(chars)`: drops the leading characters in `drop`. */
  function StripLeftOf(drop: char -> bool, s: string): (r: string)
    ensures |r| <= |s| && r == s[|s| - |r|..]
    ensures AllIn(drop, s[..|s| - |r|])
    ensures r == [] || !drop(r[0])
  {
    if |s| > 0 && drop(s[0]) then StripLeftOf(drop, s[1..]) else s
  }

  /** `str.rstrip(chars)`: drops the trailing characters in `drop`. */
  function StripRightOf(drop: char -> bool, s: string): (r: string)
    ensures |r| <= |s| && r == s[..|r|]
    ensures AllIn(drop, s[|r|..])
    ensures r == [] || !drop(r[|r| - 1])
  {
    if |s| > 0 && drop(s[|s| - 1]) then StripRightOf(drop, s[..|s| - 1]) else s
  }

  /** Left-stripping leaves nothing exactly when every character is dropped. */
  lemma {:induction false} StripLeftEmpty(drop: char -> bool, s: string)
    ensures StripLeftOf(drop, s) == [] <==> AllIn(drop, s)
  {
    if |s| > 0 && drop(s[0]) {
      StripLeftEmpty(drop, s[1..]);
      if AllIn(drop, s[1..]) {
        forall k | 0 <= k < |s| ensures drop(s[k]) {
          if k > 0 { assert s[k] == s[1..][k - 1]; }
        }
      }
    }
  }

  /** Right-stripping leaves nothing exactly when every character is dropped. */
  lemma {:induction false} StripRightEmpty(drop: char -> bool, s: string)
    ensures StripRightOf(drop, s) == [] <==> AllIn(drop, s)
  {
    if |s| > 0 && drop(s[|s| - 1]) {
      var init := s[..|s| - 1];
      StripRightEmpty(drop, init);
      if AllIn(drop, init) {
        forall k | 0 <= k < |s| ensures drop(s[k]) {
          if k < |s| - 1 { assert s[k] == init[k]; }
        }
      }
    }
  }

  /** `str.strip(chars)`: strips both ends; the result neither begins nor ends
      with a dropped character, and is empty exactly when every character is
      dropped. */
  function StripOf(drop: char -> bool, s: string): (r: string)
    ensures TrimmedOf(drop, r)
    ensures r == [] <==> AllIn(drop, s)
  {
    var left := StripLeftOf(drop, s);
    StripLeftEmpty(drop, s);
    StripRightEmpty(drop, left);
    var r := StripRightOf(drop, left);
    assert r != [] ==> r[0] == left[0];
    r
  }

  /** Sequence facts used below, proved apart from the stripping contracts,
      whose quantifiers make them costly to prove in place. */
  lemma SplitAt(s: string, k: nat)
    requires k <= |s|
    ensures s[..k] + s[k..] == s
  {
  }

  lemma ConcatAssoc(a: string, t: string, b: string)
    ensures a + (t + b) == a + t + b
  {
  }

  /** Stripping removes dropped characters only: the input is the result with
      some dropped characters in front and some behind. */
  lemma {:induction false} StripOfRemovesOnly(drop: char -> bool, s: string)
    ensures exists a, b :: AllIn(drop, a) && AllIn(drop, b) && s == a + StripOf(drop, s) + b
  {
    var left := StripLeftOf(drop, s);
    var r := StripRightOf(drop, left);
    assert r == StripOf(drop, s);
    var k := |s| - |left|;
    var a, b := s[..k], left[|r|..];
    SplitAt(s, k);
    SplitAt(left, |r|);
    ConcatAssoc(a, r, b);
    assert AllIn(drop, a) && AllIn(drop, b) && s == a + r + b;
  }

  /** Dropped characters in front of a string that does not begin with one are
      exactly what left-stripping removes. */
  lemma {:induction false} StripLeftOfPadded(drop: char -> bool, a: string, t: string)
    requires AllIn(drop, a) && (t == [] || !drop(t[0]))
    ensures StripLeftOf(drop, a + t) == t
  {
    if a != [] {
      assert (a + t)[0] == a[0];
      assert (a + t)[1..] == a[1..] + t;
      StripLeftOfPadded(drop, a[1..], t);
    }
  }

  /** Dropped characters behind a string that does not end with one are exactly
      what right-stripping removes. */
  lemma {:induction false} StripRightOfPadded(drop: char -> bool, t: string, b: string)
    requires AllIn(drop, b) && (t == [] || !drop(t[|t| - 1]))
    ensures StripRightOf(drop, t + b) == t
  {
    if b != [] {
      var n := |t + b|;
      assert (t + b)[n - 1] == b[|b| - 1];
      assert (t + b)[..n - 1] == t + b[..|b| - 1];
      StripRightOfPadded(drop, t, b[..|b| - 1]);
    }
  }

  /** Padding a trimmed string with dropped characters on both sides and
      stripping it gives back exactly that string. */
  lemma StripOfPadded(drop: char -> bool, a: string, t: string, b: string)
    requires AllIn(drop, a) && AllIn(drop, b) && TrimmedOf(drop, t)
    ensures StripOf(drop, a + t + b) == t
  {
    if t == [] {
      assert a + t + b == a + b;
      forall k | 0 <= k < |a + b| ensures drop((a + b)[k]) {
        if k < |a| { assert (a + b)[k] == a[k]; } else { assert (a + b)[k] == b[k - |a|]; }
      }
    } else {
      assert a + t + b == a + (t + b);
      StripLeftOfPadded(drop, a, t + b);
      StripRightOfPadded(drop, t, b);
    }
  }

  predicate AllSpace(s: string)
  {
    AllIn(IsSpace, s)
  }

  /** A string that `strip()` leaves as it is: empty, or beginning and ending
      with a non-whitespace character. */
  predicate Stripped(s: string)
  {
    TrimmedOf(IsSpace, s)
  }

  /** `str.strip()`: strips both ends; the result is empty exactly when the
      input is blank. */
  function Strip(s: string): (r: string)
    ensures Stripped(r)
    ensures r == [] <==> AllSpace(s)
  {
    StripOf(IsSpace, s)
  }

  /** What `strip()` removes is whitespace only: the input is the result with
      some whitespace in front and some behind. */
  lemma StripRemovesOnlySpace(s: string)
    ensures exists a, b :: AllSpace(a) && AllSpace(b) && s == a + Strip(s) + b
  {
    StripOfRemovesOnly(IsSpace, s);
    var a, b :| AllIn(IsSpace, a) && AllIn(IsSpace, b) && s == a + StripOf(IsSpace, s) + b;
    assert AllSpace(a) && AllSpace(b) && s == a + Strip(s) + b;
  }

  /** Padding a stripped string with whitespace on both sides and stripping it
      again gives back exactly that string; with StripRemovesOnlySpace this
      determines Strip's result. */
  lemma StripPadded(a: string, t: string, b: string)
    requires AllSpace(a) && AllSpace(b) && Stripped(t)
    ensures Strip(a + t + b) == t
  {
    StripOfPadded(IsSpace, a, t, b);
  }

  lemma EmptyPadding(t: string)
    ensures [] + t + [] == t
  {
  }

  /** `strip()` is idempotent. */
  lemma StripIdempotent(s: string)
    ensures Strip(Strip(s)) == Strip(s)
  {
    var t := Strip(s);
    var e: string := [];
    EmptyPadding(t);
    StripPadded(e, t, e);
  }

  /** `s.startswith(p)`. */
  predicate StartsWith(s: string, p: string)
  {
    |p| <= |s| && s[..|p|] == p
  }
}

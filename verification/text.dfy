/**
  Python's `str.strip()` with no argument, used on the submitted URL
  (app/app.py:130). Like CPython, it scans for the first character that is
  not whitespace from the left, for the last one from the right, and returns
  what lies between them.
*/
module Text {

  /**
    The characters for which Python's `str.isspace()` holds: the ASCII
    controls TAB to CR, the information separators 0x1C-0x1F, SPACE, NEL,
    NO-BREAK SPACE, and the Unicode space, line and paragraph separators.
  */
  predicate IsSpace(c: char) {
    || '\t' <= c <= '\r'
    || '\U{1C}' <= c <= '\U{1F}'
    || c == ' '
    || c == '\U{85}'
    || c == '\U{A0}'
    || c == '\U{1680}'
    || '\U{2000}' <= c <= '\U{200A}'
    || c == '\U{2028}'
    || c == '\U{2029}'
    || c == '\U{202F}'
    || c == '\U{205F}'
    || c == '\U{3000}'
  }

  predicate AllSpace(s: string) {
    forall k | 0 <= k < |s| :: IsSpace(s[k])
  }

  /** The number of leading whitespace characters: where the stripped text starts. */
  function LeadingSpace(s: string): (n: nat)
    ensures n <= |s|
    ensures forall k | 0 <= k < n :: IsSpace(s[k])
    ensures n < |s| ==> !IsSpace(s[n])
  {
    if s != [] && IsSpace(s[0]) then 1 + LeadingSpace(s[1..]) else 0
  }

  /** One past the last character that is not whitespace (0 if there is none). */
  function ContentEnd(s: string): (n: nat)
    ensures n <= |s|
    ensures forall k | n <= k < |s| :: IsSpace(s[k])
    ensures n > 0 ==> !IsSpace(s[n - 1])
  {
    if s != [] && IsSpace(s[|s| - 1]) then ContentEnd(s[..|s| - 1]) else |s|
  }

  /** `s.strip()` */
  function Strip(s: string): string {
    var i, j := LeadingSpace(s), ContentEnd(s);
    if i < j then s[i..j] else ""
  }

  /** The stripped text neither starts nor ends with whitespace. */
  lemma {:induction false} StripTrimmed(s: string)
    ensures Strip(s) != [] ==> !IsSpace(Strip(s)[0]) && !IsSpace(Strip(s)[|Strip(s)| - 1])
  {
    var i, j := LeadingSpace(s), ContentEnd(s);
    assert i < j ==> Strip(s)[0] == s[i] && Strip(s)[|Strip(s)| - 1] == s[j - 1];
  }

  /**
    What strip returns: the part of `s` between a whitespace prefix (of
    length `i`) and a whitespace suffix.
  */
  lemma {:induction false} StripShape(s: string) returns (i: nat)
    ensures i + |Strip(s)| <= |s|
    ensures Strip(s) == s[i..i + |Strip(s)|]
    ensures forall k | 0 <= k < i :: IsSpace(s[k])
    ensures forall k | i + |Strip(s)| <= k < |s| :: IsSpace(s[k])
  {
    i := LeadingSpace(s);
    var j := ContentEnd(s);
    if j <= i {
      assert Strip(s) == "";
      assert i == |s|;
    }
  }

  /** A URL is rejected as empty exactly when it is whitespace only. */
  lemma {:induction false} StripEmptyIffAllSpace(s: string)
    ensures Strip(s) == "" <==> AllSpace(s)
  {
    var i, j := LeadingSpace(s), ContentEnd(s);
    if i < |s| {
      assert !IsSpace(s[i]);
      assert i < j;
    }
  }

  /** Padding a URL that has no whitespace at either end and stripping gives it back. */
  lemma {:induction false} StripPadded(pre: string, s: string, post: string)
    requires AllSpace(pre) && AllSpace(post)
    requires s != [] ==> !IsSpace(s[0]) && !IsSpace(s[|s| - 1])
    ensures Strip(pre + s + post) == s
  {
    var x := pre + s + post;
    if s == [] {
      assert AllSpace(x) by {
        forall k | 0 <= k < |x| ensures IsSpace(x[k]) {
          if k < |pre| { assert x[k] == pre[k]; } else { assert x[k] == post[k - |pre|]; }
        }
      }
      StripEmptyIffAllSpace(x);
    } else {
      var i, j := LeadingSpace(x), ContentEnd(x);
      assert x[|pre|] == s[0];
      assert x[|pre| + |s| - 1] == s[|s| - 1];
      assert i == |pre| && j == |pre| + |s|;
      assert x[i..j] == s;
    }
  }

  /** Stripping twice is stripping once. */
  lemma {:induction false} StripIdempotent(s: string)
    ensures Strip(Strip(s)) == Strip(s)
  {
    var r := Strip(s);
    StripTrimmed(s);
    StripPadded([], r, []);
    assert [] + r + [] == r;
  }
}

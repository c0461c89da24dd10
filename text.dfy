/**
 * The part of Go's `strings` package that the input loader relies on:
 * `strings.TrimSpace`, which removes leading and trailing white space as
 * defined by `unicode.IsSpace`.
 */
module Text {

  /** Go's `unicode.IsSpace`: the Latin-1 spaces plus the Unicode White_Space code points. */
  predicate IsSpace(c: char) {
    var u := c as int;
    (0x09 <= u <= 0x0D) || u == 0x20 || u == 0x85 || u == 0xA0 ||
    u == 0x1680 || (0x2000 <= u <= 0x200A) || u == 0x2028 || u == 0x2029 ||
    u == 0x202F || u == 0x205F || u == 0x3000
  }

  /** Every character of `s` is white space (true of the empty string). */
  predicate AllSpace(s: string) {
    forall i :: 0 <= i < |s| ==> IsSpace(s[i])
  }

  /** `s` neither starts nor ends with white space. */
  predicate NoEdgeSpace(s: string) {
    s != [] ==> !IsSpace(s[0]) && !IsSpace(s[|s| - 1])
  }

  /** Drops the white space at the front of `s`. */
  function TrimLeft(s: string): (r: string)
    ensures |r| <= |s|
    ensures r == [] <==> AllSpace(s)
    ensures r != [] ==> !IsSpace(r[0]) && r[|r| - 1] == s[|s| - 1]
  {
    if s != [] && IsSpace(s[0]) then TrimLeft(s[1..]) else s
  }

  /** Drops the white space at the back of `s`. */
  function TrimRight(s: string): (r: string)
    ensures |r| <= |s|
    ensures r == [] <==> AllSpace(s)
    ensures r != [] ==> !IsSpace(r[|r| - 1]) && r[0] == s[0]
  {
    if s != [] && IsSpace(s[|s| - 1]) then TrimRight(s[..|s| - 1]) else s
  }

  /**
   * Go's `strings.TrimSpace`: first the leading white space is skipped, then
   * the trailing white space of what is left.
   */
  function TrimSpace(s: string): (r: string)
    ensures |r| <= |s|
    ensures NoEdgeSpace(r)
    ensures r == [] <==> AllSpace(s)
  {
    TrimRight(TrimLeft(s))
  }

  /** `TrimLeft` removes a run of white space from the front and nothing else. */
  lemma {:induction false} TrimLeftIsSuffix(s: string)
    ensures var n := |s| - |TrimLeft(s)|;
      TrimLeft(s) == s[n..] && forall i :: 0 <= i < n ==> IsSpace(s[i])
  {
    if s != [] && IsSpace(s[0]) {
      TrimLeftIsSuffix(s[1..]);
    }
  }

  /** `TrimRight` removes a run of white space from the back and nothing else. */
  lemma {:induction false} TrimRightIsPrefix(s: string)
    ensures var m := |TrimRight(s)|;
      TrimRight(s) == s[..m] && forall i :: m <= i < |s| ==> IsSpace(s[i])
  {
    if s != [] && IsSpace(s[|s| - 1]) {
      TrimRightIsPrefix(s[..|s| - 1]);
    }
  }

  /** Skipping white space in front of a string that starts with none. */
  lemma {:induction false} TrimLeftSkips(p: string, u: string)
    requires AllSpace(p)
    requires u == [] || !IsSpace(u[0])
    ensures TrimLeft(p + u) == u
  {
    if p != [] {
      assert (p + u)[1..] == p[1..] + u;
      TrimLeftSkips(p[1..], u);
    } else {
      assert p + u == u;
    }
  }

  /** Skipping white space behind a string that ends with none. */
  lemma {:induction false} TrimRightSkips(u: string, q: string)
    requires AllSpace(q)
    requires u == [] || !IsSpace(u[|u| - 1])
    ensures TrimRight(u + q) == u
  {
    if q != [] {
      assert (u + q)[..|u + q| - 1] == u + q[..|q| - 1];
      TrimRightSkips(u, q[..|q| - 1]);
    } else {
      assert u + q == u;
    }
  }

  /**
   * `TrimSpace` is determined by its contract: whenever `s` splits into white
   * space, a string with no white space at its ends, and white space, the
   * middle part is `TrimSpace(s)`.
   */
  lemma {:induction false} TrimSpaceUnique(p: string, t: string, q: string)
    requires AllSpace(p) && AllSpace(q) && NoEdgeSpace(t)
    ensures TrimSpace(p + t + q) == t
  {
    if t == [] {
      assert AllSpace(p + t + q) by {
        forall i | 0 <= i < |p + t + q| ensures IsSpace((p + t + q)[i]) {
          if i >= |p| { assert (p + t + q)[i] == q[i - |p|]; }
        }
      }
    } else {
      assert p + t + q == p + (t + q);
      TrimLeftSkips(p, t + q);
      TrimRightSkips(t, q);
    }
  }

  /** A string with no white space at its ends is left as it is. */
  lemma {:induction false} TrimSpaceFixes(t: string)
    requires NoEdgeSpace(t)
    ensures TrimSpace(t) == t
  {
  }

  /** Trimming an already trimmed string changes nothing. */
  lemma {:induction false} TrimSpaceIdempotent(s: string)
    ensures TrimSpace(TrimSpace(s)) == TrimSpace(s)
  {
  }
}

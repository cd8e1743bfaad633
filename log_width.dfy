/**
 * Fixed-width columns for log lines: a string is cut to the width, or padded
 * on the right with spaces up to it.
 */
module LogWidth {

  /** `n` spaces. */
  function Spaces(n: nat): (r: string)
    ensures |r| == n
    ensures forall k :: 0 <= k < n ==> r[k] == ' '
  {
    if n == 0 then "" else [' '] + Spaces(n - 1)
  }

  /** `s` truncated or right-padded with spaces to exactly `width` characters. */
  function ToWidth(s: string, width: nat): (r: string)
    ensures |r| == width
    ensures |s| > width ==> r == s[..width]
    ensures |s| <= width ==> r[..|s|] == s && forall k :: |s| <= k < width ==> r[k] == ' '
  {
    if |s| > width then s[..width] else s + Spaces(width - |s|)
  }

  /** A string already of the width is left as it is. */
  lemma ExactWidthUnchanged(s: string)
    ensures ToWidth(s, |s|) == s
  {
    assert ToWidth(s, |s|)[..|s|] == s;
  }

  /** Bringing a string to a width twice is the same as once. */
  lemma ToWidthIdempotent(s: string, width: nat)
    ensures ToWidth(ToWidth(s, width), width) == ToWidth(s, width)
  {
    ExactWidthUnchanged(ToWidth(s, width));
  }

  /** The column never loses a character that fits: `s`'s first `width` characters are kept, in place. */
  lemma ToWidthKeepsPrefix(s: string, width: nat, k: nat)
    requires k < width && k < |s|
    ensures ToWidth(s, width)[k] == s[k]
  {
    if |s| <= width {
      assert ToWidth(s, width)[..|s|][k] == s[k];
    }
  }
}

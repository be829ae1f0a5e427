/** `extractInnerWord`: strip one pair of round brackets around a word. */
module InnerWord {
  import opened Strings

  /** A string that starts with '(' and ends with ')' (so it has at least two characters). */
  predicate Wrapped(s: string) {
    StartsWith(s, "(") && EndsWith(s, ")") && |s| >= 2
  }

  /**
   * `s.slice(1, -1)` when `s` starts with "(" and ends with ")", `s` otherwise.
   * A one-character string cannot both start with "(" and end with ")", so
   * the slice always has both ends inside `s`.
   */
  function ExtractInnerWord(s: string): (r: string)
    ensures Wrapped(s) ==> |r| == |s| - 2 && s == "(" + r + ")"
    ensures !Wrapped(s) ==> r == s
  {
    if StartsWith(s, "(") && EndsWith(s, ")") then
      assert s[0] == '(' && s[|s| - 1..] == ")";
      assert s[|s| - 1] == ')';
      s[1..|s| - 1]
    else s
  }

  /** Wrapping any word in brackets and extracting it gives the word back. */
  lemma WrapRoundTrip(w: string)
    ensures ExtractInnerWord("(" + w + ")") == w
  {
    var s := "(" + w + ")";
    assert StartsWith(s, "(") && EndsWith(s, ")");
    assert s[1..|s| - 1] == w;
  }

  /** An unwrapped input is a fixed point; "()" gives "". */
  lemma Unwrapped(s: string)
    requires |s| == 0 || s[0] != '(' || s[|s| - 1] != ')'
    ensures ExtractInnerWord(s) == s
    ensures ExtractInnerWord("()") == ""
  {
    WrapRoundTrip("");
    assert "(" + "" + ")" == "()";
  }

  /** Only one layer is removed: "((a))" gives "(a)". */
  lemma OneLayer(w: string)
    ensures ExtractInnerWord("((" + w + "))") == "(" + w + ")"
  {
    WrapRoundTrip("(" + w + ")");
    assert "((" + w + "))" == "(" + ("(" + w + ")") + ")";
  }
}

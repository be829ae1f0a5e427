/**
 * The identifier builders used for generated modules, services and types:
 * `upperCamelCase` (capitalise every separator-delimited word, keep the rest
 * of each word, drop the separators) and `textToCamelCase` (drop empty
 * words, lower-case everything, capitalise every word but the first).
 * The separator is a single character; case mapping is ASCII.
 */
module Names {
  import opened Strings

  /** `word.charAt(0).toUpperCase() + word.slice(1)`. */
  function Capitalize(w: string): string {
    if w == "" then "" else [UpperChar(w[0])] + w[1..]
  }

  /** Number of occurrences of `c` in `s`. */
  function Occurrences(s: string, c: char): nat
    decreases |s|
  {
    if |s| == 0 then 0 else (if s[0] == c then 1 else 0) + Occurrences(s[1..], c)
  }

  /** `upperCamelCase({str: s, separator: [sep]})`: split, capitalise each word, join with "". */
  function UpperCamelCase(s: string, sep: char): string {
    Join(CapitalizeAll(Split(s, sep)), "")
  }

  /** `words.map(capitalize)`. */
  function CapitalizeAll(words: seq<string>): (r: seq<string>)
    ensures |r| == |words|
    ensures forall i :: 0 <= i < |words| ==> r[i] == Capitalize(words[i])
  {
    seq(|words|, i requires 0 <= i < |words| => Capitalize(words[i]))
  }

  /**
   * `textToCamelCase({str: s, separator: [sep]})`: split, drop empty words,
   * lower-case each word, then keep word 0 and capitalise every later word.
   */
  function TextToCamelCase(s: string, sep: char): string {
    Join(CamelWords(LowerAll(NonEmpty(Split(s, sep)))), "")
  }

  /** `words.map((word, index) => index === 0 ? word : capitalize(word))`. */
  function CamelWords(words: seq<string>): (r: seq<string>)
    ensures |r| == |words|
    ensures forall i :: 0 <= i < |words| ==> r[i] == if i == 0 then words[i] else Capitalize(words[i])
  {
    seq(|words|, i requires 0 <= i < |words| => if i == 0 then words[i] else Capitalize(words[i]))
  }

  /** `words.map((w) => w.toLowerCase())`. */
  function LowerAll(words: seq<string>): (r: seq<string>)
    ensures |r| == |words|
    ensures forall i :: 0 <= i < |words| ==> r[i] == ToLower(words[i])
  {
    seq(|words|, i requires 0 <= i < |words| => ToLower(words[i]))
  }

  /**
   * Reference definition of `upperCamelCase` as one left-to-right pass:
   * a separator is dropped and starts a new word; the first character of a
   * word is upper-cased; every other character is kept.
   */
  function UpperScan(s: string, sep: char, atStart: bool): string
    decreases |s|
  {
    if |s| == 0 then ""
    else if s[0] == sep then UpperScan(s[1..], sep, true)
    else [if atStart then UpperChar(s[0]) else s[0]] + UpperScan(s[1..], sep, false)
  }

  /**
   * Reference definition of `textToCamelCase` as one left-to-right pass:
   * separators are dropped; every character is lower-cased, except that the
   * first character of a word is upper-cased once some earlier word was
   * emitted (`seen`).
   */
  function CamelScan(s: string, sep: char, seen: bool, atStart: bool): string
    decreases |s|
  {
    if |s| == 0 then ""
    else if s[0] == sep then CamelScan(s[1..], sep, seen, true)
    else
      [if atStart && seen then UpperChar(LowerChar(s[0])) else LowerChar(s[0])]
        + CamelScan(s[1..], sep, true, false)
  }

  /** Joining with "" a list headed by `x` puts `x` in front. */
  lemma JoinEmptyCons(x: string, xs: seq<string>)
    ensures Join([x] + xs, "") == x + Join(xs, "")
  {
    if |xs| > 0 {
      assert ([x] + xs)[1..] == xs;
    }
  }

  /** The words of the split, capitalised from index `first ? 0 : 1` on. */
  function CapitalizedFrom(parts: seq<string>, first: bool): (r: seq<string>)
    ensures |r| == |parts|
    ensures forall i :: 0 <= i < |parts| ==>
      r[i] == if i == 0 && !first then parts[i] else Capitalize(parts[i])
  {
    seq(|parts|, i requires 0 <= i < |parts| =>
      if i == 0 && !first then parts[i] else Capitalize(parts[i]))
  }

  lemma LowerAllCons(x: string, xs: seq<string>)
    ensures LowerAll([x] + xs) == [ToLower(x)] + LowerAll(xs)
  {
    assert forall i :: 0 < i <= |xs| ==> ([x] + xs)[i] == xs[i - 1];
  }

  lemma {:induction false} UpperScanSplit(s: string, sep: char, atStart: bool)
    ensures UpperScan(s, sep, atStart) == Join(CapitalizedFrom(Split(s, sep), atStart), "")
    decreases |s|
  {
    if |s| > 0 {
      var rest := Split(s[1..], sep);
      SplitCons(s[0], s[1..], sep);
      assert [s[0]] + s[1..] == s;
      if s[0] == sep {
        UpperScanSplit(s[1..], sep, true);
        CapitalizedFromSep(rest, atStart);
        JoinEmptyCons("", CapitalizedFrom(rest, true));
      } else {
        UpperScanSplit(s[1..], sep, false);
        CapitalizedFromGlue(s[0], rest, atStart);
        var tail := CapitalizedFrom(rest, false);
        JoinConsHead([if atStart then UpperChar(s[0]) else s[0]], tail[0], tail[1..], "");
        assert [tail[0]] + tail[1..] == tail;
      }
    }
  }

  lemma CapitalizedFromSep(rest: seq<string>, first: bool)
    ensures CapitalizedFrom([""] + rest, first) == [""] + CapitalizedFrom(rest, true)
  {
    assert forall i :: 0 < i <= |rest| ==> ([""] + rest)[i] == rest[i - 1];
  }

  lemma CapitalizedFromGlue(x: char, rest: seq<string>, first: bool)
    requires |rest| >= 1
    ensures var tail := CapitalizedFrom(rest, false);
      CapitalizedFrom([[x] + rest[0]] + rest[1..], first)
        == [[if first then UpperChar(x) else x] + tail[0]] + tail[1..]
  {
    var parts := [[x] + rest[0]] + rest[1..];
    assert forall i :: 0 < i < |parts| ==> parts[i] == rest[i];
  }

  /** `upperCamelCase` agrees with its one-pass reference definition. */
  lemma UpperCamelCaseScan(s: string, sep: char)
    ensures UpperCamelCase(s, sep) == UpperScan(s, sep, true)
  {
    UpperScanSplit(s, sep, true);
    assert CapitalizedFrom(Split(s, sep), true) == CapitalizeAll(Split(s, sep));
  }

  lemma {:induction false} UpperScanShape(s: string, sep: char, atStart: bool)
    ensures |UpperScan(s, sep, atStart)| == |s| - Occurrences(s, sep)
    ensures !IsUpperChar(sep) ==> sep !in UpperScan(s, sep, atStart)
    decreases |s|
  {
    if |s| > 0 {
      UpperScanShape(s[1..], sep, true);
      UpperScanShape(s[1..], sep, false);
    }
  }

  /**
   * The separators disappear and nothing else does: the output is as long as
   * the input minus its separators, and (for a separator that is not an
   * upper-case letter, such as '-') holds no separator.
   */
  lemma UpperCamelCaseShape(s: string, sep: char)
    ensures |UpperCamelCase(s, sep)| == |s| - Occurrences(s, sep)
    ensures !IsUpperChar(sep) ==> sep !in UpperCamelCase(s, sep)
  {
    UpperCamelCaseScan(s, sep);
    UpperScanShape(s, sep, true);
  }

  /**
   * Only the first character of each word changes: characters after the
   * first of a word are kept as they are (not lower-cased).
   */
  lemma UpperCamelCaseOneWord(w: string, sep: char)
    requires sep !in w
    ensures UpperCamelCase(w, sep) == Capitalize(w)
  {
    SplitNoSep(w, sep);
  }

  /** The capitalised, lowered words `textToCamelCase` emits, from `seen` on. */
  function CamelOf(parts: seq<string>, seen: bool): string
    decreases |parts|
  {
    if |parts| == 0 then ""
    else if parts[0] == "" then CamelOf(parts[1..], seen)
    else
      (if seen then Capitalize(ToLower(parts[0])) else ToLower(parts[0]))
        + CamelOf(parts[1..], true)
  }

  lemma {:induction false} CamelOfSeen(parts: seq<string>)
    ensures CamelOf(parts, true) == Join(CapitalizeAll(LowerAll(NonEmpty(parts))), "")
    decreases |parts|
  {
    if |parts| > 0 {
      CamelOfSeen(parts[1..]);
      if parts[0] != "" {
        var ws := LowerAll(NonEmpty(parts[1..]));
        LowerAllCons(parts[0], NonEmpty(parts[1..]));
        var x := ToLower(parts[0]);
        assert CapitalizeAll([x] + ws) == [Capitalize(x)] + CapitalizeAll(ws);
        JoinEmptyCons(Capitalize(x), CapitalizeAll(ws));
      }
    }
  }

  lemma {:induction false} CamelOfFirst(parts: seq<string>)
    ensures CamelOf(parts, false) == Join(CamelWords(LowerAll(NonEmpty(parts))), "")
    decreases |parts|
  {
    if |parts| > 0 {
      if parts[0] == "" {
        CamelOfFirst(parts[1..]);
      } else {
        CamelOfSeen(parts[1..]);
        var ws := LowerAll(NonEmpty(parts[1..]));
        LowerAllCons(parts[0], NonEmpty(parts[1..]));
        var x := ToLower(parts[0]);
        assert CamelWords([x] + ws) == [x] + CapitalizeAll(ws);
        JoinEmptyCons(x, CapitalizeAll(ws));
      }
    }
  }

  /** The source's filter/map/index pipeline is the word-by-word recursion. */
  lemma TextToCamelCaseWords(s: string, sep: char)
    ensures TextToCamelCase(s, sep) == CamelOf(Split(s, sep), false)
  {
    CamelOfFirst(Split(s, sep));
  }

  /** A fresh word (after a separator or at the start) of the scan. */
  lemma {:induction false} CamelScanWords(s: string, sep: char, seen: bool)
    ensures CamelScan(s, sep, seen, true) == CamelOf(Split(s, sep), seen)
    decreases |s|, 1
  {
    if |s| > 0 {
      var rest := Split(s[1..], sep);
      SplitCons(s[0], s[1..], sep);
      assert [s[0]] + s[1..] == s;
      if s[0] == sep {
        CamelScanWords(s[1..], sep, seen);
        assert Split(s, sep)[1..] == rest;
      } else {
        CamelScanInWord(s[1..], sep);
        var w := [s[0]] + rest[0];
        assert Split(s, sep)[0] == w && Split(s, sep)[1..] == rest[1..];
        ToLowerAppend([s[0]], rest[0]);
        assert ToLower([s[0]]) == [LowerChar(s[0])];
        assert ToLower(w) == [LowerChar(s[0])] + ToLower(rest[0]);
        assert Capitalize(ToLower(w)) == [UpperChar(LowerChar(s[0]))] + ToLower(rest[0]);
      }
    }
  }

  /** The remainder of a word already started, then the later words. */
  lemma {:induction false} CamelScanInWord(t: string, sep: char)
    ensures CamelScan(t, sep, true, false) ==
      ToLower(Split(t, sep)[0]) + CamelOf(Split(t, sep)[1..], true)
    decreases |t|, 0
  {
    if |t| > 0 {
      var rest := Split(t[1..], sep);
      SplitCons(t[0], t[1..], sep);
      assert [t[0]] + t[1..] == t;
      if t[0] == sep {
        CamelScanWords(t[1..], sep, true);
        assert Split(t, sep)[1..] == rest;
      } else {
        CamelScanInWord(t[1..], sep);
        ToLowerAppend([t[0]], rest[0]);
        assert ToLower([t[0]]) == [LowerChar(t[0])];
      }
    }
  }

  /** `textToCamelCase` agrees with its one-pass reference definition. */
  lemma TextToCamelCaseScan(s: string, sep: char)
    ensures TextToCamelCase(s, sep) == CamelScan(s, sep, false, true)
  {
    TextToCamelCaseWords(s, sep);
    CamelScanWords(s, sep, false);
  }

  lemma {:induction false} CamelScanShape(s: string, sep: char, seen: bool, atStart: bool)
    ensures |CamelScan(s, sep, seen, atStart)| == |s| - Occurrences(s, sep)
    ensures !IsLetter(sep) ==> sep !in CamelScan(s, sep, seen, atStart)
    ensures (forall i :: 0 <= i < |s| ==> s[i] == sep) ==> CamelScan(s, sep, seen, atStart) == ""
    decreases |s|
  {
    if |s| > 0 {
      CamelScanShape(s[1..], sep, seen, true);
      CamelScanShape(s[1..], sep, true, false);
      if forall i :: 0 <= i < |s| ==> s[i] == sep {
        assert forall i :: 0 <= i < |s[1..]| ==> s[1..][i] == sep by {
          forall i | 0 <= i < |s[1..]| ensures s[1..][i] == sep {
            assert s[1..][i] == s[i + 1];
          }
        }
      }
    }
  }

  /**
   * `textToCamelCase` drops exactly the separators: the output is as long as
   * the input minus its separators, holds no separator when that is not a
   * letter (such as '-'), and is "" for an input made only of separators
   * (in particular for "").
   */
  lemma TextToCamelCaseShape(s: string, sep: char)
    ensures |TextToCamelCase(s, sep)| == |s| - Occurrences(s, sep)
    ensures !IsLetter(sep) ==> sep !in TextToCamelCase(s, sep)
    ensures (forall i :: 0 <= i < |s| ==> s[i] == sep) ==> TextToCamelCase(s, sep) == ""
  {
    TextToCamelCaseScan(s, sep);
    CamelScanShape(s, sep, false, true);
  }

  /** A single word is lower-cased: `"user"` stays `"user"`, `"User"` gives `"user"`. */
  lemma TextToCamelCaseOneWord(w: string, sep: char)
    requires sep !in w && w != ""
    ensures TextToCamelCase(w, sep) == ToLower(w)
  {
    SplitNoSep(w, sep);
    assert NonEmpty([w]) == [w];
    JoinEmptyCons(ToLower(w), []);
  }

  lemma {:induction false} ScansAgreeSeen(s: string, sep: char, atStart: bool)
    requires forall i :: 0 <= i < |s| ==> !IsUpperChar(s[i])
    ensures UpperScan(s, sep, atStart) == CamelScan(s, sep, true, atStart)
    decreases |s|
  {
    if |s| > 0 {
      ScansAgreeSeen(s[1..], sep, true);
      ScansAgreeSeen(s[1..], sep, false);
    }
  }

  lemma {:induction false} ScansAgreeFirst(s: string, sep: char)
    requires forall i :: 0 <= i < |s| ==> !IsUpperChar(s[i])
    ensures UpperScan(s, sep, true) == Capitalize(CamelScan(s, sep, false, true))
    decreases |s|
  {
    if |s| > 0 {
      if s[0] == sep {
        ScansAgreeFirst(s[1..], sep);
      } else {
        ScansAgreeSeen(s[1..], sep, false);
      }
    }
  }

  /**
   * On an input without upper-case letters the two builders agree up to the
   * first character: `upperCamelCase(s) == capitalize(textToCamelCase(s))`.
   * This holds with empty words too, since `upperCamelCase`'s empty words
   * contribute nothing.
   */
  lemma UpperIsCapitalizedCamel(s: string, sep: char)
    requires forall i :: 0 <= i < |s| ==> !IsUpperChar(s[i])
    ensures UpperCamelCase(s, sep) == Capitalize(TextToCamelCase(s, sep))
  {
    UpperCamelCaseScan(s, sep);
    TextToCamelCaseScan(s, sep);
    ScansAgreeFirst(s, sep);
  }

  /** `upperCamelCase` on "" and on "user". */
  lemma UpperExamples()
    ensures UpperCamelCase("", '-') == ""
    ensures UpperCamelCase("user", '-') == "User"
  {
    UpperCamelCaseScan("", '-');
    UpperCamelCaseScan("user", '-');
  }

  /** `textToCamelCase` on "" and on "user". */
  lemma CamelExamples()
    ensures TextToCamelCase("", '-') == ""
    ensures TextToCamelCase("user", '-') == "user"
  {
    TextToCamelCaseScan("", '-');
    TextToCamelCaseScan("user", '-');
  }

  /** Two separator-free words `a-b` (e.g. "user-profile") split into exactly those words. */
  lemma TwoWordSplit(a: string, b: string, sep: char)
    requires sep !in a && sep !in b
    ensures Split(a + [sep] + b, sep) == [a, b]
  {
    SplitConcat(a, b, sep);
    SplitNoSep(a, sep);
    SplitNoSep(b, sep);
  }

  /** `upperCamelCase("user-profile") == "UserProfile"`: both words capitalised, glued. */
  lemma UpperTwoWords(a: string, b: string, sep: char)
    requires sep !in a && sep !in b
    ensures UpperCamelCase(a + [sep] + b, sep) == Capitalize(a) + Capitalize(b)
  {
    TwoWordSplit(a, b, sep);
    assert CapitalizeAll([a, b]) == [Capitalize(a)] + [Capitalize(b)];
    JoinEmptyCons(Capitalize(a), [Capitalize(b)]);
  }

  /** `textToCamelCase("user-profile") == "userProfile"`: only the second word is capitalised. */
  lemma CamelTwoWords(a: string, b: string, sep: char)
    requires sep !in a && sep !in b && a != "" && b != ""
    ensures TextToCamelCase(a + [sep] + b, sep) == ToLower(a) + Capitalize(ToLower(b))
  {
    TwoWordSplit(a, b, sep);
    assert NonEmpty([a, b]) == [a, b] by {
      assert [a, b][1..] == [b];
      assert NonEmpty([b]) == [b];
    }
    assert CamelWords(LowerAll([a, b])) == [ToLower(a)] + [Capitalize(ToLower(b))];
    JoinEmptyCons(ToLower(a), [Capitalize(ToLower(b))]);
  }
}

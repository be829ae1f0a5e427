/**
 * Dynamic parameter names of a route pattern: the matches of the global
 * pattern `/:([^/]+)/g` (a ':' followed by the longest non-empty run of
 * characters other than '/'), with the ':' stripped.  `getAllDynamicSegments`
 * returns them unchecked; `getTanstackDynamicSegments` additionally rejects
 * every name that is not an identifier, reporting the first offending match.
 */
module DynamicSegments {
  import opened Results
  import opened Strings

  /** Length of the longest prefix of `s` without '/' (the `[^/]+` run). */
  function RunLength(s: string): (n: nat)
    ensures n <= |s|
    decreases |s|
  {
    if |s| == 0 || s[0] == '/' then 0 else 1 + RunLength(s[1..])
  }

  /**
   * `s.match(/:([^/]+)/g)` as a left-to-right scan (`[]` standing for
   * `null`): at a ':' followed by at least one non-'/' character the match
   * takes the ':' and the whole run, and scanning resumes after it;
   * elsewhere scanning moves one character on.
   */
  function Matches(s: string): (ms: seq<string>)
    ensures forall i :: 0 <= i < |ms| ==> |ms[i]| >= 2 && ms[i][0] == ':'
    decreases |s|
  {
    if |s| == 0 then []
    else
      var n := RunLength(s[1..]);
      if s[0] == ':' && n > 0 then [s[..1 + n]] + Matches(s[1 + n..])
      else Matches(s[1..])
  }

  /** `getAllDynamicSegments(route)`: every match without its ':'. */
  function GetAllDynamicSegments(route: string): seq<string> {
    var ms := Matches(route);
    seq(|ms|, i requires 0 <= i < |ms| => ms[i][1..])
  }

  /** Every match is ':' followed by a non-empty run without '/'. */
  lemma {:induction false} MatchesShape(s: string)
    ensures forall i :: 0 <= i < |Matches(s)| ==>
      |Matches(s)[i]| >= 2 && Matches(s)[i][0] == ':' && '/' !in Matches(s)[i]
    decreases |s|
  {
    if |s| > 0 {
      var n := RunLength(s[1..]);
      if s[0] == ':' && n > 0 {
        MatchesShape(s[1 + n..]);
        RunNoSlash(s[1..]);
        assert s[..1 + n] == [':'] + s[1..][..n];
      } else {
        MatchesShape(s[1..]);
      }
    }
  }

  lemma {:induction false} RunNoSlash(s: string)
    ensures '/' !in s[..RunLength(s)]
    decreases |s|
  {
    if |s| > 0 && s[0] != '/' {
      RunNoSlash(s[1..]);
      assert s[..RunLength(s)] == [s[0]] + s[1..][..RunLength(s[1..])];
    }
  }

  /**
   * `getAllDynamicSegments` never fails and performs no validation: every
   * name is non-empty and free of '/', and there are none exactly when the
   * pattern has no match.
   */
  lemma AllDynamicSegmentsShape(route: string)
    ensures forall i :: 0 <= i < |GetAllDynamicSegments(route)| ==>
      GetAllDynamicSegments(route)[i] != "" && '/' !in GetAllDynamicSegments(route)[i]
    ensures GetAllDynamicSegments(route) == [] <==> Matches(route) == []
  {
    MatchesShape(route);
    var ms, names := Matches(route), GetAllDynamicSegments(route);
    forall i | 0 <= i < |names| ensures names[i] != "" && '/' !in names[i] {
      assert '/' !in ms[i];
      assert forall x :: x in ms[i][1..] ==> x in ms[i];
    }
  }

  /** A ':' that is followed by a character other than '/'. */
  predicate ParamStart(s: string, i: int) {
    0 <= i && i + 1 < |s| && s[i] == ':' && s[i + 1] != '/'
  }

  /** There is a match exactly when some ':' is followed by a non-'/' character. */
  lemma {:induction false} MatchesNonEmpty(s: string)
    ensures Matches(s) != [] <==> exists i :: ParamStart(s, i)
    decreases |s|
  {
    if |s| > 0 {
      var n := RunLength(s[1..]);
      MatchesNonEmpty(s[1..]);
      if s[0] == ':' && n > 0 {
        assert ParamStart(s, 0);
      } else {
        assert !ParamStart(s, 0);
        if exists i :: ParamStart(s, i) {
          var i :| ParamStart(s, i);
          assert ParamStart(s[1..], i - 1);
        }
        if exists i :: ParamStart(s[1..], i) {
          var i :| ParamStart(s[1..], i);
          assert ParamStart(s, i + 1);
        }
      }
    }
  }

  /** Position of the first ':' in `p`, or `|p|`. */
  function FirstColon(p: string): (k: nat)
    ensures k <= |p|
    ensures forall j :: 0 <= j < k ==> p[j] != ':'
    ensures k < |p| ==> p[k] == ':'
    decreases |p|
  {
    if |p| == 0 || p[0] == ':' then 0 else 1 + FirstColon(p[1..])
  }

  /**
   * Reference definition on one '/'-free part: the part's match, if any, is
   * everything from its first ':' to its end, provided that ':' is not the
   * last character.  (So ":a:b" yields the single name "a:b".)
   */
  function PartMatch(p: string): seq<string> {
    var k := FirstColon(p);
    if k + 1 < |p| then [p[k..]] else []
  }

  function PartMatches(parts: seq<string>): seq<string>
    decreases |parts|
  {
    if |parts| == 0 then [] else PartMatch(parts[0]) + PartMatches(parts[1..])
  }

  lemma {:induction false} RunOfPart(u: string, w: string)
    requires '/' !in u
    requires w == "" || w[0] == '/'
    ensures RunLength(u + w) == |u|
    decreases |u|
  {
    if |u| == 0 {
      assert u + w == w;
    } else {
      assert (u + w)[1..] == u[1..] + w;
      RunOfPart(u[1..], w);
    }
  }

  /** Scanning a '/'-free part and then the rest matches the part on its own. */
  lemma {:induction false} MatchesPart(u: string, w: string)
    requires '/' !in u
    requires w == "" || w[0] == '/'
    ensures Matches(u + w) == PartMatch(u) + Matches(w)
    decreases |u|
  {
    if |u| == 0 {
      assert u + w == w;
    } else {
      var s := u + w;
      assert s[1..] == u[1..] + w;
      RunOfPart(u[1..], w);
      if u[0] == ':' {
        if |u| >= 2 {
          assert s[..|u|] == u && s[|u|..] == w;
        } else {
          assert u[1..] + w == w;
        }
      } else {
        MatchesPart(u[1..], w);
        assert FirstColon(u) == 1 + FirstColon(u[1..]);
        assert u[FirstColon(u)..] == u[1..][FirstColon(u[1..])..];
      }
    }
  }

  /**
   * The global scan is the per-part reference: the names are found part by
   * part, left to right, at most one per '/'-delimited part.
   */
  lemma {:induction false} MatchesByPart(s: string)
    ensures Matches(s) == PartMatches(Split(s, '/'))
    decreases |s|
  {
    if '/' !in s {
      MatchesNoSlash(s);
    } else {
      var k := FirstSlash(s);
      var u, t := s[..k], s[k + 1..];
      AroundFirstSlash(s);
      MatchesByPart(t);
      MatchesAtSlash(u, t);
    }
  }

  /**
   * `getAllDynamicSegments` read part by part: one name per '/'-delimited
   * part that has a ':' before its last character, in order, and each name
   * with ':' in front is that part from its first ':' on.
   */
  lemma AllDynamicSegmentsByPart(route: string)
    ensures var names, ms := GetAllDynamicSegments(route), PartMatches(Split(route, '/'));
      |names| == |ms| && forall i :: 0 <= i < |ms| ==> [':'] + names[i] == ms[i]
  {
    MatchesByPart(route);
    var ms := Matches(route);
    forall i | 0 <= i < |ms| ensures [':'] + ms[i][1..] == ms[i] {
      assert ms[i] == [ms[i][0]] + ms[i][1..];
    }
  }

  lemma MatchesNoSlash(s: string)
    requires '/' !in s
    ensures Matches(s) == PartMatches(Split(s, '/'))
  {
    SplitNoSep(s, '/');
    MatchesPart(s, "");
    assert s + "" == s;
    PartMatchesCons(s, []);
  }

  lemma AroundFirstSlash(s: string)
    requires '/' in s
    ensures var k := FirstSlash(s);
      '/' !in s[..k] && s == s[..k] + ['/'] + s[k + 1..]
  {
    var k := FirstSlash(s);
    assert s == s[..k] + ([s[k]] + s[k + 1..]);
  }

  /** The step of `MatchesByPart` at the first '/': the part before it, then the rest. */
  lemma MatchesAtSlash(u: string, t: string)
    requires '/' !in u
    requires Matches(t) == PartMatches(Split(t, '/'))
    ensures Matches(u + ['/'] + t) == PartMatches(Split(u + ['/'] + t, '/'))
  {
    MatchesAfterPart(u, t);
    SplitAfterPart(u, t);
    PartMatchesCons(u, Split(t, '/'));
  }

  lemma MatchesAfterPart(u: string, t: string)
    requires '/' !in u
    ensures Matches(u + ['/'] + t) == PartMatch(u) + Matches(t)
  {
    MatchesPart(u, ['/'] + t);
    assert (['/'] + t)[1..] == t;
    assert u + (['/'] + t) == u + ['/'] + t;
  }

  lemma SplitAfterPart(u: string, t: string)
    requires '/' !in u
    ensures Split(u + ['/'] + t, '/') == [u] + Split(t, '/')
  {
    SplitConcat(u, t, '/');
    SplitNoSep(u, '/');
  }

  lemma PartMatchesCons(p: string, rest: seq<string>)
    ensures PartMatches([p] + rest) == PartMatch(p) + PartMatches(rest)
  {
    assert ([p] + rest)[1..] == rest;
  }

  /** Position of the first '/' of a string that has one. */
  function FirstSlash(s: string): (k: nat)
    requires '/' in s
    ensures k < |s| && s[k] == '/' && '/' !in s[..k]
    decreases |s|
  {
    if s[0] == '/' then 0
    else
      var k := FirstSlash(s[1..]);
      assert s[..k + 1] == [s[0]] + s[1..][..k];
      k + 1
  }

  /** Why `getTanstackDynamicSegments` rejects a match, in the order it checks. */
  datatype ErrorKind =
    | StartsWithDigit
    | ContainsDash
    | ContainsQuestionMark
    | NotIdentifier
    | DashInMatch

  /** The thrown error: the reason and the whole offending match (with its ':'). */
  datatype SegmentError = SegmentError(kind: ErrorKind, segment: string)

  /** The returned record `{ isDynamic, segments }`. */
  datatype Dynamic = Dynamic(isDynamic: bool, segments: seq<string>)

  /** `\w`: an ASCII letter, digit or '_'. */
  predicate IsWordChar(c: char) {
    IsLetter(c) || IsDigit(c) || c == '_'
  }

  /** `/^[A-Za-z_]\w*$/`. */
  predicate IsIdentifier(name: string) {
    |name| >= 1 && (IsLetter(name[0]) || name[0] == '_')
    && forall i :: 0 <= i < |name| ==> IsWordChar(name[i])
  }

  /** The guard clauses applied to one match `seg`, in source order; `None` means accepted. */
  function Check(seg: string): (r: Option<ErrorKind>)
    requires |seg| >= 1
    ensures r == None ==> IsIdentifier(seg[1..])
    ensures !IsIdentifier(seg[1..]) ==> r != Some(DashInMatch)
  {
    var name := seg[1..];
    if |name| > 0 && IsDigit(name[0]) then Some(StartsWithDigit)
    else if '-' in name then Some(ContainsDash)
    else if '?' in name then Some(ContainsQuestionMark)
    else if !IsIdentifier(name) then Some(NotIdentifier)
    else if |Split(seg, '-')| > 1 then Some(DashInMatch)
    else None
  }

  /**
   * The second dash check can never fire: a match reaching it starts with
   * ':' and its name has no '-', so splitting the match on '-' gives one part.
   */
  lemma DashInMatchUnreachable(seg: string)
    requires |seg| >= 1 && seg[0] == ':'
    ensures Check(seg) != Some(DashInMatch)
    ensures Check(seg) == None <==> IsIdentifier(seg[1..])
  {
    var name := seg[1..];
    if '-' !in name {
      assert seg == [':'] + name;
      assert '-' !in seg;
      SplitNoSep(seg, '-');
    }
  }

  /**
   * Each guard fires on exactly the inputs its message describes, given that
   * the earlier guards passed: a leading digit wins over everything, then a
   * dash, then a question mark, then any other non-identifier.
   */
  lemma CheckReasons(seg: string)
    requires |seg| >= 1
    ensures var name := seg[1..];
      (Check(seg) == Some(StartsWithDigit) <==> |name| > 0 && IsDigit(name[0]))
      && (Check(seg) == Some(ContainsDash) <==> !(|name| > 0 && IsDigit(name[0])) && '-' in name)
      && (Check(seg) == Some(ContainsQuestionMark) <==>
            !(|name| > 0 && IsDigit(name[0])) && '-' !in name && '?' in name)
  {
  }

  /** Validate the matches in order; the first rejected one is the error. */
  function ValidateAll(ms: seq<string>): (r: Result<seq<string>, SegmentError>)
    requires forall i :: 0 <= i < |ms| ==> |ms[i]| >= 1
    decreases |ms|
  {
    if |ms| == 0 then Ok([])
    else match Check(ms[0])
      case Some(kind) => Err(SegmentError(kind, ms[0]))
      case None =>
        match ValidateAll(ms[1..])
        case Ok(names) => Ok([ms[0][1..]] + names)
        case Err(e) => Err(e)
  }

  /** `getTanstackDynamicSegments(route)`; `Err` is the thrown error. */
  function GetTanstackDynamicSegments(route: string): Result<Dynamic, SegmentError> {
    var ms := Matches(route);
    MatchesShape(route);
    if ms == [] then Ok(Dynamic(false, []))
    else match ValidateAll(ms)
      case Ok(names) => Ok(Dynamic(true, names))
      case Err(e) => Err(e)
  }

  lemma {:induction false} ValidateAllOk(ms: seq<string>)
    requires forall i :: 0 <= i < |ms| ==> |ms[i]| >= 1 && ms[i][0] == ':'
    ensures ValidateAll(ms).Ok? <==> forall i :: 0 <= i < |ms| ==> IsIdentifier(ms[i][1..])
    ensures ValidateAll(ms).Ok? ==>
      |ValidateAll(ms).value| == |ms|
      && forall i :: 0 <= i < |ms| ==> ValidateAll(ms).value[i] == ms[i][1..]
    decreases |ms|
  {
    if |ms| > 0 {
      ValidateAllOk(ms[1..]);
      DashInMatchUnreachable(ms[0]);
      assert forall i :: 1 <= i < |ms| ==> ms[i] == ms[1..][i - 1];
    }
  }

  lemma {:induction false} ValidateAllErr(ms: seq<string>)
    requires forall i :: 0 <= i < |ms| ==> |ms[i]| >= 1 && ms[i][0] == ':'
    ensures ValidateAll(ms).Err? ==>
      exists k :: 0 <= k < |ms| && ms[k] == ValidateAll(ms).error.segment
        && Check(ms[k]) == Some(ValidateAll(ms).error.kind)
        && forall j :: 0 <= j < k ==> Check(ms[j]) == None
    decreases |ms|
  {
    if |ms| > 0 && Check(ms[0]) == None {
      ValidateAllErr(ms[1..]);
      if ValidateAll(ms).Err? {
        var k :| 0 <= k < |ms[1..]| && ms[1..][k] == ValidateAll(ms).error.segment
          && Check(ms[1..][k]) == Some(ValidateAll(ms).error.kind)
          && forall j :: 0 <= j < k ==> Check(ms[1..][j]) == None;
        assert forall j :: 1 <= j < k + 1 ==> ms[j] == ms[1..][j - 1];
        assert ms[k + 1] == ms[1..][k];
      }
    } else if |ms| > 0 {
      assert ms[0] == ValidateAll(ms).error.segment;
    }
  }

  /**
   * `getTanstackDynamicSegments` succeeds exactly when every name the
   * pattern yields is an identifier (`[A-Za-z_][A-Za-z0-9_]*`), and then
   * returns exactly the names `getAllDynamicSegments` returns, with
   * `isDynamic` true exactly when there is at least one.
   */
  lemma TanstackSegmentsOk(route: string)
    ensures GetTanstackDynamicSegments(route).Ok? <==>
      forall i :: 0 <= i < |GetAllDynamicSegments(route)| ==> IsIdentifier(GetAllDynamicSegments(route)[i])
    ensures GetTanstackDynamicSegments(route).Ok? ==>
      GetTanstackDynamicSegments(route).value.segments == GetAllDynamicSegments(route)
      && (GetTanstackDynamicSegments(route).value.isDynamic <==> GetAllDynamicSegments(route) != [])
  {
    var ms, names := Matches(route), GetAllDynamicSegments(route);
    ValidateAllOk(ms);
    assert |names| == |ms| && forall i :: 0 <= i < |ms| ==> names[i] == ms[i][1..];
    assert (forall i :: 0 <= i < |names| ==> IsIdentifier(names[i]))
      <==> (forall i :: 0 <= i < |ms| ==> IsIdentifier(ms[i][1..]));
    if ms != [] && ValidateAll(ms).Ok? {
      assert ValidateAll(ms).value == names;
    }
  }

  /**
   * A failure names the first match, in left-to-right order, that a guard
   * rejects, and the guard that rejects it.
   */
  lemma TanstackSegmentsErr(route: string)
    ensures GetTanstackDynamicSegments(route).Err? ==>
      FirstRejected(Matches(route), GetTanstackDynamicSegments(route).error)
  {
    var ms := Matches(route);
    ValidateAllErr(ms);
    if GetTanstackDynamicSegments(route).Err? {
      var e := ValidateAll(ms).error;
      assert GetTanstackDynamicSegments(route).error == e;
      var k :| 0 <= k < |ms| && ms[k] == e.segment && Check(ms[k]) == Some(e.kind)
        && forall j :: 0 <= j < k ==> Check(ms[j]) == None;
      assert forall j :: 0 <= j < k ==> IsIdentifier(ms[j][1..]);
      assert FirstRejectedAt(ms, e, k);
    }
  }

  /** Match `k` is the error's segment, rejected for the error's reason, and all earlier matches pass. */
  predicate FirstRejectedAt(ms: seq<string>, e: SegmentError, k: int) {
    0 <= k < |ms| && ms[k] == e.segment && |ms[k]| >= 2 && ms[k][0] == ':'
    && Check(ms[k]) == Some(e.kind)
    && forall j :: 0 <= j < k ==> |ms[j]| >= 1 && IsIdentifier(ms[j][1..])
  }

  predicate FirstRejected(ms: seq<string>, e: SegmentError) {
    exists k :: 0 <= k < |ms| && FirstRejectedAt(ms, e, k)
  }

  /** `isDynamic` holds exactly when some ':' is followed by a character other than '/'. */
  lemma IsDynamicIff(route: string)
    requires GetTanstackDynamicSegments(route).Ok?
    ensures GetTanstackDynamicSegments(route).value.isDynamic <==> exists i :: ParamStart(route, i)
  {
    MatchesNonEmpty(route);
  }

  /** A trailing bare ':' yields no name: "/a/:" is not dynamic. */
  lemma BareColon()
    ensures GetTanstackDynamicSegments("/a/:") == Ok(Dynamic(false, []))
  {
    MatchesNonEmpty("/a/:");
  }

  lemma MatchesSlash(t: string)
    ensures Matches(['/'] + t) == Matches(t)
  {
    assert (['/'] + t)[1..] == t;
  }

  /** A part without ':' yields nothing; a part ":" + n with n non-empty yields itself. */
  lemma PartMatchCases(a: string, n: string)
    requires ':' !in a && |n| >= 1
    ensures PartMatch(a) == []
    ensures PartMatch([':'] + n) == [[':'] + n]
  {
    assert FirstColon(a) == |a|;
  }

  /**
   * After one static part, a dynamic name that starts with a digit is
   * rejected, and the error names the whole match.
   */
  lemma DigitExample(a: string, n: string)
    requires '/' !in a && ':' !in a
    requires '/' !in n && |n| >= 1 && IsDigit(n[0])
    ensures GetTanstackDynamicSegments("/" + a + "/:" + n)
      == Err(SegmentError(StartsWithDigit, ":" + n))
  {
    var r := "/" + a + "/:" + n;
    PartMatchCases(a, n);
    assert r == ['/'] + (a + (['/'] + ([':'] + n)));
    MatchesSlash(a + (['/'] + ([':'] + n)));
    MatchesPart(a, ['/'] + ([':'] + n));
    MatchesSlash([':'] + n);
    assert '/' !in [':'] + n;
    MatchesPart([':'] + n, "");
    assert [':'] + n + "" == [':'] + n == ":" + n;
    assert Matches(r) == [":" + n];
  }

  /**
   * The documented example "/folder1/:folder2/:folder3", in general form:
   * a static part followed by two dynamic parts yields the two names, in order.
   */
  lemma DocExample(a: string, b: string, c: string)
    requires '/' !in a && ':' !in a
    requires '/' !in b && '/' !in c && |b| >= 1 && |c| >= 1
    ensures GetAllDynamicSegments("/" + a + "/:" + b + "/:" + c) == [b, c]
  {
    var r := "/" + a + "/:" + b + "/:" + c;
    var tail := ['/'] + ([':'] + c);
    PartMatchCases(a, b);
    PartMatchCases(a, c);
    assert r == ['/'] + (a + (['/'] + (([':'] + b) + tail)));
    MatchesSlash(a + (['/'] + (([':'] + b) + tail)));
    MatchesPart(a, ['/'] + (([':'] + b) + tail));
    MatchesSlash(([':'] + b) + tail);
    assert '/' !in [':'] + b && '/' !in [':'] + c;
    MatchesPart([':'] + b, tail);
    MatchesSlash([':'] + c);
    MatchesPart([':'] + c, "");
    assert [':'] + c + "" == [':'] + c;
    assert Matches(r) == [[':'] + b, [':'] + c];
    assert ([':'] + b)[1..] == b && ([':'] + c)[1..] == c;
  }
}

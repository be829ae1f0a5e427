/**
 * The two path conventions of the route generators. A route pattern is split
 * on `/`; a part that starts with `:` is dynamic. Next.js turns `:x` into a
 * directory `[x]` and joins with the platform separator
 * (src/templates/next-js/utils/route-to-next-js-path.ts, inlined again in
 * src/templates/next-js/route-generator.ts); TanStack Router turns `:x` into
 * `$x` and joins with `/` (src/templates/vite-react/utils/route-to-tanstack-path.ts).
 */
module RoutePaths {
  import opened Strings

  /** `part.startsWith(":")`. */
  predicate IsDynamicPart(part: string) {
    StartsWith(part, ":")
  }

  function BracketPart(part: string): string {
    if IsDynamicPart(part) then "[" + part[1..] + "]" else part
  }

  function DollarPart(part: string): string {
    if IsDynamicPart(part) then "$" + part[1..] else part
  }

  function MapBracket(parts: seq<string>): (r: seq<string>)
    ensures |r| == |parts|
  {
    seq(|parts|, i requires 0 <= i < |parts| => BracketPart(parts[i]))
  }

  function MapDollar(parts: seq<string>): (r: seq<string>)
    ensures |r| == |parts|
  {
    seq(|parts|, i requires 0 <= i < |parts| => DollarPart(parts[i]))
  }

  /** `routeToNextJsPath(route)` with `path.sep` passed in as `sep`. */
  function RouteToNextJsPath(route: string, sep: string): string {
    Join(MapBracket(Split(route, '/')), sep)
  }

  /** `routeToTanstackPath(route)`. */
  function RouteToTanstackPath(route: string): string {
    Join(MapDollar(Split(route, '/')), "/")
  }

  /** How many parts are dynamic. */
  function DynamicCount(parts: seq<string>): nat
    decreases |parts|
  {
    if |parts| == 0 then 0
    else (if IsDynamicPart(parts[0]) then 1 else 0) + DynamicCount(parts[1..])
  }

  predicate NoDynamicPart(route: string) {
    forall i :: 0 <= i < |Split(route, '/')| ==> !IsDynamicPart(Split(route, '/')[i])
  }

  /**
   * Splitting the Next.js path on a one-character platform separator gives
   * back the route's `/`-parts, each mapped: as many parts as the route has,
   * static parts unchanged, `:x` as `[x]`. This needs the separator not to
   * occur inside a part (it is `/` itself, or absent from the route).
   */
  lemma NextJsParts(route: string, sep: char)
    requires sep == '/' || (sep !in route && sep != '[' && sep != ']')
    ensures Split(RouteToNextJsPath(route, [sep]), sep) == MapBracket(Split(route, '/'))
  {
    var parts := Split(route, '/');
    SplitPartsFree(route, '/');
    forall i | 0 <= i < |parts| ensures sep !in MapBracket(parts)[i] {
      assert sep !in parts[i];
      if IsDynamicPart(parts[i]) {
        assert forall x :: x in parts[i][1..] ==> x in parts[i];
      }
    }
    SplitJoin(MapBracket(parts), sep);
  }

  /** Splitting the TanStack path on `/` gives the route's parts with `:x` as `$x`. */
  lemma TanstackParts(route: string)
    ensures Split(RouteToTanstackPath(route), '/') == MapDollar(Split(route, '/'))
  {
    var parts := Split(route, '/');
    SplitPartsFree(route, '/');
    forall i | 0 <= i < |parts| ensures '/' !in MapDollar(parts)[i] {
      if IsDynamicPart(parts[i]) {
        assert forall x :: x in parts[i][1..] ==> x in parts[i];
      }
    }
    SplitJoin(MapDollar(parts), '/');
  }

  /** Without dynamic parts the Next.js path is the route with `/` replaced by the separator. */
  lemma NextJsStaticRoute(route: string, sep: char)
    requires NoDynamicPart(route)
    ensures RouteToNextJsPath(route, [sep]) == ReplaceChar(route, '/', sep)
  {
    var parts := Split(route, '/');
    assert MapBracket(parts) == parts;
    JoinSplitReplace(route, '/', sep);
  }

  /** Without dynamic parts the TanStack path is the route itself. */
  lemma TanstackStaticRoute(route: string)
    requires NoDynamicPart(route)
    ensures RouteToTanstackPath(route) == route
  {
    assert MapDollar(Split(route, '/')) == Split(route, '/');
    JoinSplit(route, '/');
  }

  /**
   * The TanStack path read one character at a time: a `:` that opens a part
   * (at the start, or right after a `/`) becomes `$`, every other character
   * is kept. `atPartStart` says whether `s[0]` opens a part.
   */
  function DollarScan(s: string, atPartStart: bool): (r: string)
    ensures |r| == |s|
    decreases |s|
  {
    if |s| == 0 then ""
    else [if atPartStart && s[0] == ':' then '$' else s[0]] + DollarScan(s[1..], s[0] == '/')
  }

  /** Character `i` of the scan: `$` exactly where a `:` opens a part. */
  lemma {:induction false} DollarScanAt(s: string, atPartStart: bool, i: nat)
    requires i < |s|
    ensures DollarScan(s, atPartStart)[i] ==
      if s[i] == ':' && (if i == 0 then atPartStart else s[i - 1] == '/') then '$' else s[i]
    decreases i
  {
    if i > 0 {
      DollarScanAt(s[1..], s[0] == '/', i - 1);
      assert s[1..][i - 1] == s[i];
      if i > 1 {
        assert s[1..][i - 2] == s[i - 1];
      }
    }
  }

  /** The first part of `Split(s, '/')` is mapped when `atPartStart`, the others always. */
  function JoinDollar(s: string, atPartStart: bool): string {
    var parts := Split(s, '/');
    Join([if atPartStart then DollarPart(parts[0]) else parts[0]] + MapDollar(parts[1..]), "/")
  }

  lemma {:induction false} DollarScanSplit(s: string, atPartStart: bool)
    ensures JoinDollar(s, atPartStart) == DollarScan(s, atPartStart)
    decreases |s|
  {
    if |s| > 0 {
      if s[0] == '/' {
        DollarScanSplit(s[1..], true);
        DollarScanSlash(s, atPartStart);
      } else {
        DollarScanSplit(s[1..], false);
        DollarScanOther(s, atPartStart);
      }
    }
  }

  lemma DollarScanSlash(s: string, atPartStart: bool)
    requires |s| > 0 && s[0] == '/'
    ensures JoinDollar(s, atPartStart) == "/" + JoinDollar(s[1..], true)
  {
    var rest := Split(s[1..], '/');
    assert Split(s, '/') == [""] + rest;
    assert ([""] + rest)[1..] == rest;
    assert MapDollar(rest) == [DollarPart(rest[0])] + MapDollar(rest[1..]);
  }

  lemma DollarScanOther(s: string, atPartStart: bool)
    requires |s| > 0 && s[0] != '/'
    ensures JoinDollar(s, atPartStart)
      == [if atPartStart && s[0] == ':' then '$' else s[0]] + JoinDollar(s[1..], false)
  {
    var rest := Split(s[1..], '/');
    var x := if atPartStart && s[0] == ':' then '$' else s[0];
    var first := [s[0]] + rest[0];
    assert Split(s, '/') == [first] + rest[1..];
    assert first[1..] == rest[0];
    assert (if atPartStart then DollarPart(first) else first) == [x] + rest[0];
    JoinConsHead([x], rest[0], MapDollar(rest[1..]), "/");
    assert rest == [rest[0]] + rest[1..];
  }

  /**
   * The TanStack path has the route's length and differs from it only where
   * a part starts with `:`, which becomes `$`.
   */
  lemma TanstackAt(route: string)
    ensures |RouteToTanstackPath(route)| == |route|
    ensures forall i :: 0 <= i < |route| ==>
      RouteToTanstackPath(route)[i] ==
        if route[i] == ':' && (i == 0 || route[i - 1] == '/') then '$' else route[i]
  {
    var parts := Split(route, '/');
    DollarScanSplit(route, true);
    assert MapDollar(parts) == [DollarPart(parts[0])] + MapDollar(parts[1..]);
    assert RouteToTanstackPath(route) == JoinDollar(route, true);
    forall i | 0 <= i < |route|
      ensures RouteToTanstackPath(route)[i] ==
        if route[i] == ':' && (i == 0 || route[i - 1] == '/') then '$' else route[i]
    {
      DollarScanAt(route, true, i);
    }
  }

  /** Brackets add one character to each dynamic part. */
  lemma {:induction false} BracketSumLen(parts: seq<string>)
    ensures SumLen(MapBracket(parts)) == SumLen(parts) + DynamicCount(parts)
    decreases |parts|
  {
    if |parts| > 0 {
      BracketSumLen(parts[1..]);
      assert MapBracket(parts)[1..] == MapBracket(parts[1..]);
    }
  }

  /**
   * Length of the Next.js path: the route's length, plus one per dynamic
   * part, plus the difference in separator length at every join; with a
   * one-character separator, just the route's length plus the dynamic parts.
   */
  lemma NextJsLength(route: string, sep: string)
    ensures var parts := Split(route, '/');
      |RouteToNextJsPath(route, sep)| == |route| + DynamicCount(parts) + (|parts| - 1) * (|sep| - 1)
  {
    var parts := Split(route, '/');
    var mapped := MapBracket(parts);
    var n, dyn, sum := |parts|, DynamicCount(parts), SumLen(parts);
    assert |mapped| == n;
    JoinLength(mapped, sep);
    BracketSumLen(parts);
    assert |RouteToNextJsPath(route, sep)| == sum + dyn + (n - 1) * |sep|;
    JoinLength(parts, "/");
    JoinSplit(route, '/');
    assert |route| == sum + (n - 1);
    SeparatorWidth(n - 1, |sep|);
  }

  /** `k` separators of width `w` are `k` slashes plus `k` times the extra width. */
  lemma SeparatorWidth(k: int, w: int)
    ensures k * w == k * (w - 1) + k
  {
  }

  /**
   * The documented example `/folder1/:folder2/:folder3`, written as the join
   * of its parts; the leading `/` survives as a leading separator.
   */
  lemma NextJsExample()
    ensures RouteToNextJsPath(Join(["", "folder1", ":folder2", ":folder3"], "/"), "/")
      == Join(["", "folder1", "[folder2]", "[folder3]"], "/")
  {
    var parts := ["", "folder1", ":folder2", ":folder3"];
    SplitJoin(parts, '/');
    assert BracketPart(":folder2") == "[folder2]" by {
      assert ":folder2"[1..] == "folder2";
    }
    assert BracketPart(":folder3") == "[folder3]" by {
      assert ":folder3"[1..] == "folder3";
    }
    assert MapBracket(parts) == ["", "folder1", "[folder2]", "[folder3]"];
  }

  /** The documented example of the TanStack conversion, written as joins of parts. */
  lemma TanstackExample()
    ensures RouteToTanstackPath(Join(["", "folder1", ":folder2", ":folder3"], "/"))
      == Join(["", "folder1", "$folder2", "$folder3"], "/")
  {
    var parts := ["", "folder1", ":folder2", ":folder3"];
    SplitJoin(parts, '/');
    assert DollarPart(":folder2") == "$folder2" by {
      assert ":folder2"[1..] == "folder2";
    }
    assert DollarPart(":folder3") == "$folder3" by {
      assert ":folder3"[1..] == "folder3";
    }
    assert MapDollar(parts) == ["", "folder1", "$folder2", "$folder3"];
  }
}

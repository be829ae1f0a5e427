/**
 * The two loops that name a route's generated artifacts: `lastStaticSegment`
 * and `staticParentPath`. Both split the route on `/`, walk the parts left to
 * right, stop at the first part that starts with `:`, and skip empty parts.
 * Each loop is a method proved against a specification function; the
 * properties the generators rely on are lemmas about those functions.
 */
module StaticPrefix {
  import opened Strings
  import opened RoutePaths

  /** Index of the first dynamic part, or `|parts|` when there is none. */
  function FirstDynamic(parts: seq<string>): (k: nat)
    ensures k <= |parts|
    ensures forall j :: 0 <= j < k ==> !IsDynamicPart(parts[j])
    ensures k < |parts| ==> IsDynamicPart(parts[k])
    decreases |parts|
  {
    if |parts| == 0 then 0
    else if IsDynamicPart(parts[0]) then 0
    else 1 + FirstDynamic(parts[1..])
  }

  /** The static prefix of a route: its non-empty parts before the first dynamic part. */
  function StaticParts(route: string): seq<string> {
    var parts := Split(route, '/');
    NonEmpty(parts[..FirstDynamic(parts)])
  }

  /** What `staticParentPath` returns: the static prefix joined by `/`. */
  function StaticParent(route: string): string {
    Join(StaticParts(route), "/")
  }

  /** The last non-empty element of `parts`, or "" when every element is empty. */
  function LastNonEmpty(parts: seq<string>): string
    decreases |parts|
  {
    if |parts| == 0 then ""
    else if parts[|parts| - 1] != "" then parts[|parts| - 1]
    else LastNonEmpty(parts[..|parts| - 1])
  }

  /** What `lastStaticSegment` returns: the last non-empty part before the first dynamic part. */
  function LastStatic(route: string): string {
    var parts := Split(route, '/');
    LastNonEmpty(parts[..FirstDynamic(parts)])
  }

  /** `lastStaticSegment(route)`: the loop that keeps the latest non-empty part and breaks at `:`. */
  method LastStaticSegment(route: string) returns (last: string)
    ensures last == LastStatic(route)
  {
    var parts := Split(route, '/');
    last := "";
    for i := 0 to |parts|
      invariant i <= FirstDynamic(parts)
      invariant last == LastNonEmpty(parts[..i])
    {
      if IsDynamicPart(parts[i]) {
        break;
      }
      if parts[i] != "" {
        last := parts[i];
      }
      assert parts[..i + 1][..i] == parts[..i];
    }
  }

  /** `staticParentPath(route)`: the loop that pushes non-empty parts and breaks at `:`. */
  method StaticParentPath(route: string) returns (path: string)
    ensures path == StaticParent(route)
  {
    var parts := Split(route, '/');
    var staticParts: seq<string> := [];
    for i := 0 to |parts|
      invariant i <= FirstDynamic(parts)
      invariant staticParts == NonEmpty(parts[..i])
    {
      if IsDynamicPart(parts[i]) {
        break;
      }
      NonEmptyStep(parts, i);
      if parts[i] != "" {
        staticParts := staticParts + [parts[i]];
      }
    }
    path := Join(staticParts, "/");
  }

  lemma NonEmptyStep(parts: seq<string>, i: nat)
    requires i < |parts|
    ensures NonEmpty(parts[..i + 1]) == NonEmpty(parts[..i]) + (if parts[i] == "" then [] else [parts[i]])
  {
    assert parts[..i + 1] == parts[..i] + [parts[i]];
    NonEmptyAppend(parts[..i], [parts[i]]);
  }

  /** The last non-empty element is the last element of the non-empty elements. */
  lemma {:induction false} LastNonEmptyIsLast(parts: seq<string>)
    ensures var kept := NonEmpty(parts);
      LastNonEmpty(parts) == if kept == [] then "" else kept[|kept| - 1]
    decreases |parts|
  {
    if |parts| > 0 {
      var init := parts[..|parts| - 1];
      LastNonEmptyIsLast(init);
      assert parts == init + [parts[|parts| - 1]];
      NonEmptyAppend(init, [parts[|parts| - 1]]);
    }
  }

  /** `lastStaticSegment` returns the last of the parts `staticParentPath` joins. */
  lemma LastStaticIsLastPart(route: string)
    ensures var ps := StaticParts(route);
      LastStatic(route) == if ps == [] then "" else ps[|ps| - 1]
  {
    var parts := Split(route, '/');
    LastNonEmptyIsLast(parts[..FirstDynamic(parts)]);
  }

  /** A join ends with its last part. */
  lemma {:induction false} JoinEndsWithLast(parts: seq<string>, sep: string)
    requires |parts| >= 1
    ensures EndsWith(Join(parts, sep), parts[|parts| - 1])
    decreases |parts|
  {
    if |parts| > 1 {
      JoinEndsWithLast(parts[1..], sep);
      var j := Join(parts[1..], sep);
      var last := parts[|parts| - 1];
      assert (parts[0] + sep + j)[|parts[0] + sep + j| - |last|..] == j[|j| - |last|..];
    }
  }

  /** A join of parts whose first part is non-empty is non-empty. */
  lemma JoinNonEmpty(parts: seq<string>, sep: string)
    requires |parts| >= 1 && parts[0] != ""
    ensures Join(parts, sep) != ""
    ensures Join(parts, sep)[0] == parts[0][0]
  {
  }

  /**
   * The key fact behind the module directory: the static parent path always
   * ends with the last static segment, so `parentPath.endsWith(lastStaticPath)`
   * never fails on the values the generators pass.
   */
  lemma ParentEndsWithLast(route: string)
    ensures EndsWith(StaticParent(route), LastStatic(route))
  {
    LastStaticIsLastPart(route);
    var ps := StaticParts(route);
    if ps != [] {
      JoinEndsWithLast(ps, "/");
    }
  }

  /** The parent path is "" exactly when the last static segment is "". */
  lemma ParentEmptyIffLastEmpty(route: string)
    ensures StaticParent(route) == "" <==> LastStatic(route) == ""
  {
    LastStaticIsLastPart(route);
    var ps := StaticParts(route);
    if ps != [] {
      JoinNonEmpty(ps, "/");
    }
  }

  /** The static parts carry no `/`, are non-empty and do not start with `:`. */
  lemma StaticPartsShape(route: string)
    ensures forall i :: 0 <= i < |StaticParts(route)| ==>
      StaticParts(route)[i] != "" && '/' !in StaticParts(route)[i] && !IsDynamicPart(StaticParts(route)[i])
  {
    var parts := Split(route, '/');
    var k := FirstDynamic(parts);
    SplitPartsFree(route, '/');
    forall i | 0 <= i < |StaticParts(route)|
      ensures '/' !in StaticParts(route)[i] && !IsDynamicPart(StaticParts(route)[i])
    {
      var p := StaticParts(route)[i];
      assert p in parts[..k];
      var j :| 0 <= j < k && parts[..k][j] == p;
      assert parts[j] == p;
    }
  }

  /** The last static segment holds no `/` and does not start with `:`. */
  lemma LastStaticShape(route: string)
    ensures '/' !in LastStatic(route)
    ensures !IsDynamicPart(LastStatic(route))
  {
    LastStaticIsLastPart(route);
    StaticPartsShape(route);
  }

  /**
   * The parent path has no empty component: splitting it on `/` gives back
   * the static parts, all non-empty, so it neither starts nor ends with `/`
   * and holds no `//`.
   */
  lemma ParentComponents(route: string)
    requires StaticParent(route) != ""
    ensures Split(StaticParent(route), '/') == StaticParts(route)
    ensures NonEmpty(Split(StaticParent(route), '/')) == Split(StaticParent(route), '/')
    ensures StaticParent(route)[0] != '/'
    ensures StaticParent(route)[|StaticParent(route)| - 1] != '/'
  {
    var ps := StaticParts(route);
    StaticPartsShape(route);
    SplitJoin(ps, '/');
    NonEmptyOfNonEmpty(ps);
    JoinNonEmpty(ps, "/");
    assert ps[0][0] in ps[0];
    JoinEndsWithLast(ps, "/");
    var p, last := StaticParent(route), ps[|ps| - 1];
    assert p[|p| - 1] == last[|last| - 1];
    assert last[|last| - 1] in last;
  }

  /** Filtering out "" changes nothing when no element is "". */
  lemma {:induction false} NonEmptyOfNonEmpty(parts: seq<string>)
    requires forall i :: 0 <= i < |parts| ==> parts[i] != ""
    ensures NonEmpty(parts) == parts
    decreases |parts|
  {
    if |parts| > 0 {
      NonEmptyOfNonEmpty(parts[1..]);
    }
  }

  /** Applying `staticParentPath` to its own result changes nothing. */
  lemma ParentIdempotent(route: string)
    ensures StaticParent(StaticParent(route)) == StaticParent(route)
  {
    var ps := StaticParts(route);
    var p := StaticParent(route);
    if ps == [] {
      assert Split("", '/') == [""];
      assert FirstDynamic([""]) == 1;
    } else {
      ParentComponents(route);
      StaticPartsShape(route);
      assert FirstDynamic(ps) == |ps|;
      assert ps[..|ps|] == ps;
    }
  }

  /** A dynamic part in `xs` hides everything appended after `xs`. */
  lemma {:induction false} FirstDynamicAppend(xs: seq<string>, ys: seq<string>)
    requires FirstDynamic(xs) < |xs|
    ensures FirstDynamic(xs + ys) == FirstDynamic(xs)
    decreases |xs|
  {
    if !IsDynamicPart(xs[0]) {
      assert (xs + ys)[1..] == xs[1..] + ys;
      FirstDynamicAppend(xs[1..], ys);
    }
  }

  /**
   * Parts after the first dynamic part never matter: once `a` holds a
   * dynamic part, appending `/` and anything to it leaves both the static
   * parts (so the parent path) and the last static segment unchanged.
   */
  lemma AfterDynamicIrrelevant(a: string, b: string)
    requires FirstDynamic(Split(a, '/')) < |Split(a, '/')|
    ensures StaticParts(a + "/" + b) == StaticParts(a)
    ensures LastStatic(a + "/" + b) == LastStatic(a)
  {
    var xs, ys := Split(a, '/'), Split(b, '/');
    SplitConcat(a, b, '/');
    FirstDynamicAppend(xs, ys);
    var k := FirstDynamic(xs);
    assert (xs + ys)[..k] == xs[..k];
  }

  /**
   * For a route without dynamic parts the parent path is the route with its
   * empty parts removed (leading, trailing and doubled slashes dropped), and
   * the last static segment is its final non-empty part.
   */
  lemma StaticRoute(route: string)
    requires NoDynamicPart(route)
    ensures StaticParts(route) == NonEmpty(Split(route, '/'))
    ensures StaticParent(route) == Join(NonEmpty(Split(route, '/')), "/")
    ensures LastStatic(route) == LastNonEmpty(Split(route, '/'))
  {
    var parts := Split(route, '/');
    assert FirstDynamic(parts) == |parts|;
    assert parts[..|parts|] == parts;
  }

  /** Every part before the first dynamic part is empty. */
  predicate NoStaticBeforeDynamic(parts: seq<string>) {
    forall j :: 0 <= j < FirstDynamic(parts) ==> parts[j] == ""
  }

  /** The last static segment is "" exactly when no non-empty part precedes the first dynamic one. */
  lemma LastStaticEmpty(route: string)
    ensures LastStatic(route) == "" <==> NoStaticBeforeDynamic(Split(route, '/'))
  {
    var parts := Split(route, '/');
    var k := FirstDynamic(parts);
    LastStaticIsLastPart(route);
    StaticPartsShape(route);
    if exists j :: 0 <= j < k && parts[j] != "" {
      var j :| 0 <= j < k && parts[j] != "";
      assert parts[..k][j] == parts[j];
      assert parts[j] in NonEmpty(parts[..k]);
      var ps := StaticParts(route);
      assert ps != [] && ps[|ps| - 1] != "";
    } else {
      assert forall i :: 0 <= i < |parts[..k]| ==> parts[..k][i] == "";
      NonEmptyOfEmpties(parts[..k]);
      assert LastStatic(route) == "";
    }
  }

  /** The last static segment is "" exactly when there are no static parts. */
  lemma LastStaticEmptyParts(route: string)
    ensures LastStatic(route) == "" <==> StaticParts(route) == []
  {
    LastStaticIsLastPart(route);
    StaticPartsShape(route);
    var ps := StaticParts(route);
    if ps != [] {
      assert ps[|ps| - 1] != "";
    }
  }

  /** "" and "/" have no static segment. */
  lemma EmptyRoutes()
    ensures LastStatic("") == "" && StaticParent("") == ""
    ensures LastStatic("/") == "" && StaticParent("/") == ""
  {
    assert Split("", '/') == [""];
    SplitConcat("", "", '/');
    assert "" + "/" + "" == "/";
    assert Split("/", '/') == ["", ""];
  }

  /**
   * The documented example `/folder1/:folder2/:folder3`: the parent path and
   * the last static segment are both `folder1` (not `folder3`).
   */
  lemma Example()
    ensures StaticParent(Join(["", "folder1", ":folder2", ":folder3"], "/")) == "folder1"
    ensures LastStatic(Join(["", "folder1", ":folder2", ":folder3"], "/")) == "folder1"
  {
    var parts := ["", "folder1", ":folder2", ":folder3"];
    SplitJoin(parts, '/');
    assert IsDynamicPart(":folder2");
    assert FirstDynamic(parts[2..]) == 0;
    assert FirstDynamic(parts) == 2;
    assert parts[..2] == ["", "folder1"];
    assert NonEmpty(["", "folder1"]) == ["folder1"];
  }
}

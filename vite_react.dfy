/**
 * `viteRouteGenerator` (src/templates/vite-react/route-generator.ts): emit
 * the TanStack file route for the route as entered (no lower-casing), then
 * the module, service and type files shared with the Next.js generator.
 * The dynamic names are validated before anything touches the disk.
 */
module ViteReact {
  import opened Results
  import opened Strings
  import opened Names
  import opened RoutePaths
  import opened StaticPrefix
  import opened DynamicSegments
  import opened Files
  import opened Scaffold

  /** `path.join(cwd, "src", "routes", routeToTanstackPath(route))`. */
  function RouteDir(route: string): Path {
    Under(["src", "routes"], RouteToTanstackPath(route))
  }

  function RouteFileName(ext: string): string {
    "index." + ext + "x"
  }

  /** The generated route file for `route` with the dynamic names `dyn`. */
  function RouteFile(route: string, dyn: Dynamic): Content {
    FileRoute(RouteToTanstackPath(route), dyn.isDynamic, dyn.segments, route)
  }

  /**
   * `generateRoute`: `getTanstackDynamicSegments` throws on an invalid name
   * before the directory is created; otherwise `index.<ext>x` is emitted.
   */
  function RouteStep(d: Disk, route: string, ext: string): Step<Outcome> {
    match GetTanstackDynamicSegments(route)
    case Err(e) => Step(d, Err(InvalidSegment(e)))
    case Ok(dyn) => Emit(d, RouteDir(route), RouteFileName(ext), RouteFile(route, dyn))
  }

  method GenerateRoute(fs: FileSystem, route: string, ext: string) returns (r: Result<Outcome, Error>)
    modifies fs
    ensures Step(fs.State(), r) == RouteStep(old(fs.State()), route, ext)
  {
    var tanstackPath := RouteToTanstackPath(route);
    var routePath := Under(["src", "routes"], tanstackPath);
    var dyn := GetTanstackDynamicSegments(route);
    if dyn.Err? {
      return Err(InvalidSegment(dyn.error));
    }
    r := EmitFile(fs, routePath, RouteFileName(ext),
      FileRoute(tanstackPath, dyn.value.isDynamic, dyn.value.segments, route));
  }

  /** A whole run of `viteRouteGenerator(route)` with the configured extension `ext`. */
  function Run(d: Disk, route: string, ext: string): Step<seq<Outcome>> {
    Continue(RouteStep(d, route, ext), StaticParent(route), LastStatic(route), ext)
  }

  method ViteRouteGenerator(fs: FileSystem, route: string, ext: string)
    returns (r: Result<seq<Outcome>, Error>)
    modifies fs
    ensures Step(fs.State(), r) == Run(old(fs.State()), route, ext)
  {
    var parentPath := StaticParentPath(route);
    var lastStaticPath := LastStaticSegment(route);
    var routeFile := GenerateRoute(fs, route, ext);
    if routeFile.Err? {
      return Err(routeFile.error);
    }
    r := ContinueRun(fs, routeFile.value, parentPath, lastStaticPath, ext);
  }

  /**
   * The route directory is `src/routes` followed by the route's non-empty
   * parts with `:x` as `$x`; splitting the `createFileRoute` key gives back
   * the same mapped parts.
   */
  lemma RouteDirParts(route: string)
    ensures RouteDir(route) == ["src", "routes"] + NonEmpty(MapDollar(Split(route, '/')))
    ensures Split(RouteToTanstackPath(route), '/') == MapDollar(Split(route, '/'))
    ensures OutsideTypes(RouteDir(route))
  {
    TanstackParts(route);
  }

  /**
   * A route with a dynamic name that is not an identifier aborts the whole
   * run with that validation error, before anything is written.
   */
  lemma InvalidSegmentAborts(d: Disk, route: string, ext: string)
    requires exists i :: 0 <= i < |GetAllDynamicSegments(route)| && !IsIdentifier(GetAllDynamicSegments(route)[i])
    ensures GetTanstackDynamicSegments(route).Err?
    ensures Run(d, route, ext) == Step(d, Err(InvalidSegment(GetTanstackDynamicSegments(route).error)))
  {
    TanstackSegmentsOk(route);
  }

  /** `/<a>/:<n>` with `n` starting with a digit is rejected as such, on any disk. */
  lemma DigitAborts(d: Disk, a: string, n: string, ext: string)
    requires '/' !in a && ':' !in a
    requires '/' !in n && |n| >= 1 && IsDigit(n[0])
    ensures Run(d, "/" + a + "/:" + n, ext) == Step(d, Err(InvalidSegment(SegmentError(StartsWithDigit, ":" + n))))
  {
    DigitExample(a, n);
  }

  /**
   * No run overwrites: every file on the disk before keeps its content, and
   * every directory stays, except below `src/types/.gitkeep` when the
   * extension is "ts".
   */
  lemma NoOverwrite(d: Disk, route: string, ext: string)
    requires Valid(d)
    ensures var e := Run(d, route, ext).disk;
      && Valid(e)
      && (forall p :: p in d.files && (ext != "ts" || !Below(Gitkeep, p)) ==> p in e.files && e.files[p] == d.files[p])
      && (forall p :: p in d.dirs && (ext != "ts" || !Below(Gitkeep, p)) ==> p in e.dirs)
  {
    var s1 := RouteStep(d, route, ext);
    match GetTanstackDynamicSegments(route)
    case Err(_) =>
    case Ok(dyn) =>
      EmitValid(d, RouteDir(route), RouteFileName(ext), RouteFile(route, dyn));
    ContinueKeeps(s1, StaticParent(route), LastStatic(route), ext);
  }

  /**
   * A run adds nothing but its own targets: the route file, the module, the
   * service and (for "ts") the type file, and the directories that hold them.
   */
  lemma AddsOnlyTargets(d: Disk, route: string, ext: string)
    ensures var last, parts := LastStatic(route), StaticParts(route);
      var routes := ["src", "routes"] + NonEmpty(MapDollar(Split(route, '/')));
      AddsOnly(d, Run(d, route, ext).disk,
        {routes + ["index." + ext + "x"], ["src", "modules"] + parts + ["index." + ext + "x"],
         ["src", "services", last + ".service." + ext]}
          + (if ext == "ts" then {["src", "types"] + parts + ["index.type.ts"]} else {}),
        Prefixes(routes) + Prefixes(["src", "modules"] + parts) + Prefixes(["src", "services"])
          + (if ext == "ts" then Prefixes(["src", "types"] + parts) else {}))
  {
    var s1 := RouteStep(d, route, ext);
    var dir, name := RouteDir(route), RouteFileName(ext);
    assert AddsOnly(d, s1.disk, {dir + [name]}, Prefixes(dir));
    RunAddsOnly(d, s1, dir, name, StaticParent(route), LastStatic(route), ext);
    TailOfRoute(route, ext);
    RouteDirParts(route);
  }

  /**
   * With "ts", a successful run leaves no `src/types/.gitkeep` behind, even
   * when every file already existed, unless the route's first static part
   * is `.gitkeep` itself.
   */
  lemma GitkeepRemoved(d: Disk, route: string)
    requires Run(d, route, "ts").result.Ok?
    requires var parts := StaticParts(route); parts == [] || parts[0] != ".gitkeep"
    ensures !Exists(Run(d, route, "ts").disk, Gitkeep)
  {
    var parent, last := StaticParent(route), LastStatic(route);
    var s1 := RouteStep(d, route, "ts");
    var s2 := ModuleStep(s1.disk, parent, last, "ts");
    var s3 := ServiceStep(s2.disk, last, "ts");
    assert Run(d, route, "ts").disk == TypeStep(s3.disk, parent, last, "ts").disk;
    ShadowedOfRoute(route);
    TypeStepRemovesGitkeep(s3.disk, parent, last);
  }

  /**
   * On success every dynamic name is an identifier and the four artifacts are
   * where the route says: the route file under the mapped route, keyed by the
   * same mapped path, using `useParams` exactly when the route has dynamic
   * names and destructuring exactly those; the module in
   * `modules/<static parent>`; the service named after the last static
   * segment; and the type file (for "ts" only) in `types/<static parent>`.
   */
  lemma Artifacts(d: Disk, route: string, ext: string)
    requires Valid(d) && Run(d, route, ext).result.Ok?
    ensures var s := Run(d, route, ext);
      var e, os, last, parts := s.disk, s.result.value, LastStatic(route), StaticParts(route);
      var names := GetAllDynamicSegments(route);
      && |os| == 4
      && (forall i :: 0 <= i < |names| ==> IsIdentifier(names[i]))
      && Emitted(e, ["src", "routes"] + NonEmpty(MapDollar(Split(route, '/'))), "index." + ext + "x", os[0],
           FileRoute(RouteToTanstackPath(route), names != [], names, route))
      && Emitted(e, ["src", "modules"] + parts, "index." + ext + "x", os[1],
           ModuleComponent(UpperCamelCase(last, '-') + "Module"))
      && Emitted(e, ["src", "services"], last + ".service." + ext, os[2],
           ServiceObject(TextToCamelCase(last, '-') + "Service"))
      && (ext != "ts" ==> os[3] == Off)
      && (ext == "ts" ==> Emitted(e, ["src", "types"] + parts, "index.type.ts", os[3],
           TypeInterface(UpperCamelCase(last, '-') + "Type")))
  {
    var parent, last := StaticParent(route), LastStatic(route);
    var s1 := RouteStep(d, route, ext);
    var r := Run(d, route, ext);
    ContinueEffect(s1, parent, last, ext);
    TanstackSegmentsOk(route);
    var dyn := GetTanstackDynamicSegments(route).value;
    var c := RouteFile(route, dyn);
    assert c == FileRoute(RouteToTanstackPath(route), GetAllDynamicSegments(route) != [],
      GetAllDynamicSegments(route), route);
    assert s1 == Emit(d, RouteDir(route), RouteFileName(ext), c);
    EmitValid(d, RouteDir(route), RouteFileName(ext), c);
    ContinueKeeps(s1, parent, last, ext);
    RouteContinueOk(route, ext, r.disk, r.result.value);
    RouteDirParts(route);
    EmittedKept(s1.disk, r.disk, RouteDir(route), RouteFileName(ext), s1.result.value, c);
  }

  /**
   * A second run on the disk the first produced changes nothing. Every file
   * it reports is skipped, except that when the extension is "ts" and the
   * route's first static part is `.gitkeep`, the type file is removed with
   * the placeholder and written again with the same content.
   */
  lemma Idempotent(d: Disk, route: string, ext: string)
    requires Valid(d) && Run(d, route, ext).result.Ok?
    ensures var s := Run(d, route, ext);
      var parts := StaticParts(route);
      |s.result.value| == 4
      && Run(s.disk, route, ext) == Step(s.disk, Ok(Rerun(s.result.value, AsSkip(s.result.value[0]),
           ext == "ts" && parts != [] && parts[0] == ".gitkeep")))
  {
    var parent, last := StaticParent(route), LastStatic(route);
    var s1 := RouteStep(d, route, ext);
    var r := Run(d, route, ext);
    ContinueEffect(s1, parent, last, ext);
    var dyn := GetTanstackDynamicSegments(route).value;
    var c := RouteFile(route, dyn);
    assert s1 == Emit(d, RouteDir(route), RouteFileName(ext), c);
    EmitValid(d, RouteDir(route), RouteFileName(ext), c);
    ContinueKeeps(s1, parent, last, ext);
    RouteDirParts(route);
    EmittedKept(s1.disk, r.disk, RouteDir(route), RouteFileName(ext), s1.result.value, c);
    EmitAgain(r.disk, RouteDir(route), RouteFileName(ext), c);
    assert RouteStep(r.disk, route, ext) == Emit(r.disk, RouteDir(route), RouteFileName(ext), c);
    ContinueAgain(s1, parent, last, ext, AsSkip(s1.result.value));
    ShadowedOfRoute(route);
  }

  /**
   * A route with no static segment before its first dynamic one still gets
   * a module at `src/modules/index.<ext>x`, a service at
   * `src/services/.service.<ext>` and, for "ts", a type file at
   * `src/types/index.type.ts`.
   */
  lemma NoStaticSegment(d: Disk, route: string, ext: string)
    requires Run(d, route, ext).result.Ok?
    requires LastStatic(route) == ""
    ensures var os := Run(d, route, ext).result.value;
      |os| == 4
      && At(os[1], ["src", "modules", "index." + ext + "x"])
      && At(os[2], ["src", "services", ".service." + ext])
      && (ext == "ts" ==> At(os[3], ["src", "types", "index.type.ts"]))
  {
    var parent, last := StaticParent(route), LastStatic(route);
    var s1 := RouteStep(d, route, ext);
    ContinueEffect(s1, parent, last, ext);
    ParentEmptyIffLastEmpty(route);
    NoStaticContinueOk(ext, Run(d, route, ext).disk, Run(d, route, ext).result.value);
  }
}

/**
 * `nextRouteGenerator` (src/templates/next-js/route-generator.ts): lower-case
 * the route, emit the App Router page, then the module, service and type
 * files shared with the Vite generator. `path.sep` is "/" here, as on POSIX.
 */
module NextJs {
  import opened Results
  import opened Strings
  import opened Names
  import opened RoutePaths
  import opened StaticPrefix
  import opened Files
  import opened Scaffold

  /** `path.join(cwd, "src", "app", routeToNextJsPath(route))`. */
  function PageDir(route: string): Path {
    Under(["src", "app"], RouteToNextJsPath(route, "/"))
  }

  function PageFileName(ext: string): string {
    "page." + ext + "x"
  }

  /** `generateRoute`: `page.<ext>x` in the page directory. */
  function RouteStep(d: Disk, route: string, ext: string): Step<Outcome> {
    Emit(d, PageDir(route), PageFileName(ext), NextPage)
  }

  method GenerateRoute(fs: FileSystem, route: string, ext: string) returns (r: Result<Outcome, Error>)
    modifies fs
    ensures Step(fs.State(), r) == RouteStep(old(fs.State()), route, ext)
  {
    var nextJsPath := RouteToNextJsPath(route, "/");
    var routePath := Under(["src", "app"], nextJsPath);
    r := EmitFile(fs, routePath, PageFileName(ext), NextPage);
  }

  /** A whole run of `nextRouteGenerator(enteredRoute)` with the configured extension `ext`. */
  function Run(d: Disk, enteredRoute: string, ext: string): Step<seq<Outcome>> {
    var route := ToLower(enteredRoute);
    Continue(RouteStep(d, route, ext), StaticParent(route), LastStatic(route), ext)
  }

  method NextRouteGenerator(fs: FileSystem, enteredRoute: string, ext: string)
    returns (r: Result<seq<Outcome>, Error>)
    modifies fs
    ensures Step(fs.State(), r) == Run(old(fs.State()), enteredRoute, ext)
  {
    var route := ToLower(enteredRoute);
    var parentPath := StaticParentPath(route);
    var lastStaticPath := LastStaticSegment(route);
    var page := GenerateRoute(fs, route, ext);
    if page.Err? {
      return Err(page.error);
    }
    r := ContinueRun(fs, page.value, parentPath, lastStaticPath, ext);
  }

  /**
   * The page directory is `src/app` followed by the route's non-empty parts,
   * static parts as they are and `:x` as `[x]`.
   */
  lemma PageDirParts(route: string)
    ensures PageDir(route) == ["src", "app"] + NonEmpty(MapBracket(Split(route, '/')))
    ensures OutsideTypes(PageDir(route))
  {
    NextJsParts(route, '/');
  }

  /**
   * No run overwrites: every file on the disk before keeps its content, and
   * every directory stays. The one exception is `src/types/.gitkeep` and
   * whatever lies below it, which the type step removes when the extension
   * is "ts".
   */
  lemma NoOverwrite(d: Disk, enteredRoute: string, ext: string)
    requires Valid(d)
    ensures var e := Run(d, enteredRoute, ext).disk;
      && Valid(e)
      && (forall p :: p in d.files && (ext != "ts" || !Below(Gitkeep, p)) ==> p in e.files && e.files[p] == d.files[p])
      && (forall p :: p in d.dirs && (ext != "ts" || !Below(Gitkeep, p)) ==> p in e.dirs)
  {
    var route := ToLower(enteredRoute);
    var s1 := RouteStep(d, route, ext);
    EmitValid(d, PageDir(route), PageFileName(ext), NextPage);
    ContinueKeeps(s1, StaticParent(route), LastStatic(route), ext);
  }

  /**
   * A run adds nothing but its own targets: the page, the module, the
   * service and (for "ts") the type file, and the directories that hold them.
   */
  lemma AddsOnlyTargets(d: Disk, enteredRoute: string, ext: string)
    ensures var route := ToLower(enteredRoute);
      var last, parts := LastStatic(route), StaticParts(route);
      var page := ["src", "app"] + NonEmpty(MapBracket(Split(route, '/')));
      AddsOnly(d, Run(d, enteredRoute, ext).disk,
        {page + ["page." + ext + "x"], ["src", "modules"] + parts + ["index." + ext + "x"],
         ["src", "services", last + ".service." + ext]}
          + (if ext == "ts" then {["src", "types"] + parts + ["index.type.ts"]} else {}),
        Prefixes(page) + Prefixes(["src", "modules"] + parts) + Prefixes(["src", "services"])
          + (if ext == "ts" then Prefixes(["src", "types"] + parts) else {}))
  {
    var route := ToLower(enteredRoute);
    var s1 := RouteStep(d, route, ext);
    assert Run(d, enteredRoute, ext) == Continue(s1, StaticParent(route), LastStatic(route), ext);
    RunAddsOnly(d, s1, PageDir(route), PageFileName(ext), StaticParent(route), LastStatic(route), ext);
    TailOfRoute(route, ext);
    PageDirParts(route);
  }

  /**
   * With "ts", a successful run leaves no `src/types/.gitkeep` behind, even
   * when every file already existed, unless the route's first static part
   * is `.gitkeep` itself.
   */
  lemma GitkeepRemoved(d: Disk, enteredRoute: string)
    requires Run(d, enteredRoute, "ts").result.Ok?
    requires var parts := StaticParts(ToLower(enteredRoute)); parts == [] || parts[0] != ".gitkeep"
    ensures !Exists(Run(d, enteredRoute, "ts").disk, Gitkeep)
  {
    var route := ToLower(enteredRoute);
    var parent, last := StaticParent(route), LastStatic(route);
    var s1 := RouteStep(d, route, "ts");
    var s2 := ModuleStep(s1.disk, parent, last, "ts");
    var s3 := ServiceStep(s2.disk, last, "ts");
    assert Run(d, enteredRoute, "ts").disk == TypeStep(s3.disk, parent, last, "ts").disk;
    ShadowedOfRoute(route);
    TypeStepRemovesGitkeep(s3.disk, parent, last);
  }

  /**
   * On success the four artifacts are where the route says, under one
   * consistent naming: the page under the mapped route, the module in
   * `modules/<static parent>`, the service named after the last static
   * segment, and the type file (for "ts" only) in `types/<static parent>`;
   * each exists at the end, and each file the run created holds its
   * generated content.
   */
  lemma Artifacts(d: Disk, enteredRoute: string, ext: string)
    requires Valid(d) && Run(d, enteredRoute, ext).result.Ok?
    ensures var route := ToLower(enteredRoute);
      var s := Run(d, enteredRoute, ext);
      var e, os, last, parts := s.disk, s.result.value, LastStatic(route), StaticParts(route);
      && |os| == 4
      && Emitted(e, ["src", "app"] + NonEmpty(MapBracket(Split(route, '/'))), "page." + ext + "x", os[0], NextPage)
      && Emitted(e, ["src", "modules"] + parts, "index." + ext + "x", os[1],
           ModuleComponent(UpperCamelCase(last, '-') + "Module"))
      && Emitted(e, ["src", "services"], last + ".service." + ext, os[2],
           ServiceObject(TextToCamelCase(last, '-') + "Service"))
      && (ext != "ts" ==> os[3] == Off)
      && (ext == "ts" ==> Emitted(e, ["src", "types"] + parts, "index.type.ts", os[3],
           TypeInterface(UpperCamelCase(last, '-') + "Type")))
  {
    var route := ToLower(enteredRoute);
    var parent, last := StaticParent(route), LastStatic(route);
    var s1 := RouteStep(d, route, ext);
    var r := Run(d, enteredRoute, ext);
    assert r == Continue(s1, parent, last, ext);
    EmitValid(d, PageDir(route), PageFileName(ext), NextPage);
    ContinueKeeps(s1, parent, last, ext);
    ContinueEffect(s1, parent, last, ext);
    RouteContinueOk(route, ext, r.disk, r.result.value);
    PageDirParts(route);
    EmittedKept(s1.disk, r.disk, PageDir(route), PageFileName(ext), s1.result.value, NextPage);
  }

  /**
   * A second run on the disk the first produced changes nothing. Every file
   * it reports is skipped, except that when the extension is "ts" and the
   * route's first static part is `.gitkeep`, the type file is removed with
   * the placeholder and written again with the same content.
   */
  lemma Idempotent(d: Disk, enteredRoute: string, ext: string)
    requires Valid(d) && Run(d, enteredRoute, ext).result.Ok?
    ensures var route := ToLower(enteredRoute);
      var s := Run(d, enteredRoute, ext);
      var parts := StaticParts(route);
      |s.result.value| == 4
      && Run(s.disk, enteredRoute, ext) == Step(s.disk, Ok(Rerun(s.result.value, AsSkip(s.result.value[0]),
           ext == "ts" && parts != [] && parts[0] == ".gitkeep")))
  {
    var route := ToLower(enteredRoute);
    var parent, last := StaticParent(route), LastStatic(route);
    var s1 := RouteStep(d, route, ext);
    var r := Run(d, enteredRoute, ext);
    EmitValid(d, PageDir(route), PageFileName(ext), NextPage);
    ContinueKeeps(s1, parent, last, ext);
    ContinueEffect(s1, parent, last, ext);
    PageDirParts(route);
    EmittedKept(s1.disk, r.disk, PageDir(route), PageFileName(ext), s1.result.value, NextPage);
    EmitAgain(r.disk, PageDir(route), PageFileName(ext), NextPage);
    ContinueAgain(s1, parent, last, ext, AsSkip(s1.result.value));
    ShadowedOfRoute(route);
  }

  /**
   * A route with no static segment before its first dynamic one ("/", "",
   * "/:id", ...) still gets a module at `src/modules/index.<ext>x`, a service
   * at `src/services/.service.<ext>` and, for "ts", a type file at
   * `src/types/index.type.ts`.
   */
  lemma NoStaticSegment(d: Disk, enteredRoute: string, ext: string)
    requires Run(d, enteredRoute, ext).result.Ok?
    requires LastStatic(ToLower(enteredRoute)) == ""
    ensures var os := Run(d, enteredRoute, ext).result.value;
      |os| == 4
      && At(os[1], ["src", "modules", "index." + ext + "x"])
      && At(os[2], ["src", "services", ".service." + ext])
      && (ext == "ts" ==> At(os[3], ["src", "types", "index.type.ts"]))
  {
    var route := ToLower(enteredRoute);
    var parent, last := StaticParent(route), LastStatic(route);
    var s1 := RouteStep(d, route, ext);
    var r := Run(d, enteredRoute, ext);
    assert r == Continue(s1, parent, last, ext);
    ContinueEffect(s1, parent, last, ext);
    ParentEmptyIffLastEmpty(route);
    NoStaticContinueOk(ext, r.disk, r.result.value);
  }
}

/**
 * What the two route generators share. Each artifact is emitted the same way:
 * `ensureDirSync(dir)`, then `existsSync(dir/name)`, then a write only when
 * nothing is there. The module, service and type steps are the same code in
 * both generators (src/templates/next-js/route-generator.ts:103-234 and
 * src/templates/vite-react/route-generator.ts:74-205); they are defined here
 * once, with the tail of the orchestration that runs them in order after the
 * framework's own route step.
 *
 * Every step is a function from the disk before to a `Step`: the disk after,
 * and what the step reports or the error it throws. The methods perform the
 * same steps on a `FileSystem` and are proved to have that effect.
 */
module Scaffold {
  import opened Results
  import opened Strings
  import opened Names
  import opened Files
  import opened StaticPrefix
  import DynamicSegments
  import RoutePaths

  /** What an emitter reports: the file written, the file skipped, or a step switched off. */
  datatype Outcome = Created(path: Path) | Skipped(path: Path) | Off

  /** What a run throws. */
  datatype Error =
    | NotADirectory(dir: Path)
    | InvalidSegment(error: DynamicSegments.SegmentError)

  /** The disk after a step, and the step's outcome or error. */
  datatype Step<T> = Step(disk: Disk, result: Result<T, Error>)

  /** The outcome reports the file at `p`. */
  predicate At(o: Outcome, p: Path) {
    o == Created(p) || o == Skipped(p)
  }

  /**
   * `path.join(base..., rel)` on a POSIX system: the components of `rel`
   * after the base, empty ones dropped.
   */
  function Under(base: Path, rel: string): Path {
    base + NonEmpty(Split(rel, '/'))
  }

  /** Every file that was there is still there with the same content, and every directory too. */
  predicate Grows(d: Disk, e: Disk) {
    && (forall p :: p in d.files ==> p in e.files && e.files[p] == d.files[p])
    && d.dirs <= e.dirs
  }

  /** `e` has no file outside `files` and no directory outside `dirs` that `d` did not have. */
  predicate AddsOnly(d: Disk, e: Disk, files: set<Path>, dirs: set<Path>) {
    e.files.Keys <= d.files.Keys + files && e.dirs <= d.dirs + dirs
  }

  /** As `Grows`, for the paths outside `g`'s subtree. */
  predicate KeptOutside(d: Disk, e: Disk, g: Path) {
    && (forall p :: p in d.files && !Below(g, p) ==> p in e.files && e.files[p] == d.files[p])
    && (forall p :: p in d.dirs && !Below(g, p) ==> p in e.dirs)
  }

  /**
   * Create-if-absent: make `dir`, then write `c` to `dir/name` unless a file
   * or directory is already there. A file that exists is never touched; a
   * component of `dir` that is a file makes `ensureDirSync` throw before
   * anything changes.
   */
  function Emit(d: Disk, dir: Path, name: string, c: Content): (s: Step<Outcome>)
    ensures s.result.Ok? <==> CanEnsureDir(d, dir)
    ensures s.result.Err? ==> s == Step(d, Err(NotADirectory(dir)))
    ensures s.result.Ok? ==>
      s.result.value == if Exists(d, dir + [name]) then Skipped(dir + [name]) else Created(dir + [name])
    ensures s.result.Ok? ==> Emitted(s.disk, dir, name, s.result.value, c)
    ensures Grows(d, s.disk)
    ensures AddsOnly(d, s.disk, {dir + [name]}, Prefixes(dir))
  {
    if !CanEnsureDir(d, dir) then Step(d, Err(NotADirectory(dir)))
    else
      var d1 := WithDir(d, dir);
      var p := dir + [name];
      assert p !in Prefixes(dir);
      if Exists(d1, p) then Step(d1, Ok(Skipped(p)))
      else Step(WithFile(d1, p, c), Ok(Created(p)))
  }

  /**
   * After a successful emission reporting `o`: the directory and `dir/name`
   * exist, and a file the emission created holds `c`.
   */
  predicate Emitted(e: Disk, dir: Path, name: string, o: Outcome, c: Content) {
    && At(o, dir + [name]) && Prefixes(dir) <= e.dirs && Exists(e, dir + [name])
    && (o.Created? ==> dir + [name] in e.files && e.files[dir + [name]] == c)
  }

  /** The shared emitting sequence of all four generators, on the file system. */
  method EmitFile(fs: FileSystem, dir: Path, name: string, c: Content) returns (r: Result<Outcome, Error>)
    modifies fs
    ensures Step(fs.State(), r) == Emit(old(fs.State()), dir, name, c)
  {
    var ok := fs.EnsureDirSync(dir);
    if !ok {
      return Err(NotADirectory(dir));
    }
    var p := dir + [name];
    if fs.ExistsSync(p) {
      r := Ok(Skipped(p));
    } else {
      fs.WriteFileSync(p, c);
      r := Ok(Created(p));
    }
  }

  lemma EmitValid(d: Disk, dir: Path, name: string, c: Content)
    requires Valid(d)
    ensures Valid(Emit(d, dir, name, c).disk)
  {
    if CanEnsureDir(d, dir) {
      WithDirValid(d, dir);
      if !Exists(WithDir(d, dir), dir + [name]) {
        WithFileValid(WithDir(d, dir), dir, name, c);
      }
    }
  }

  /** Emitting again where the directory and the file already exist is a skip that changes nothing. */
  lemma EmitAgain(d: Disk, dir: Path, name: string, c: Content)
    requires Valid(d) && Prefixes(dir) <= d.dirs && Exists(d, dir + [name])
    ensures Emit(d, dir, name, c) == Step(d, Ok(Skipped(dir + [name])))
  {
    EnsureExistingDir(d, dir);
  }

  // ---------- module ----------

  /**
   * `path.join(cwd, "src", "modules", parentPath, parentPath.endsWith(lastStaticPath) ? "" : lastStaticPath)`.
   */
  function ModuleDir(parentPath: string, lastStaticPath: string): Path {
    Under(["src", "modules"],
      parentPath + "/" + (if EndsWith(parentPath, lastStaticPath) then "" else lastStaticPath))
  }

  function ModuleFileName(ext: string): string {
    "index." + ext + "x"
  }

  function ModuleName(lastStaticPath: string): string {
    UpperCamelCase(lastStaticPath, '-') + "Module"
  }

  /** `generateModule`: `index.<ext>x` in the module directory, a component named after the segment. */
  function ModuleStep(d: Disk, parentPath: string, lastStaticPath: string, ext: string): Step<Outcome> {
    Emit(d, ModuleDir(parentPath, lastStaticPath), ModuleFileName(ext),
      ModuleComponent(ModuleName(lastStaticPath)))
  }

  method GenerateModule(fs: FileSystem, parentPath: string, lastStaticPath: string, ext: string)
    returns (r: Result<Outcome, Error>)
    modifies fs
    ensures Step(fs.State(), r) == ModuleStep(old(fs.State()), parentPath, lastStaticPath, ext)
  {
    var modulePath := ModuleDir(parentPath, lastStaticPath);
    var moduleName := ModuleName(lastStaticPath);
    r := EmitFile(fs, modulePath, ModuleFileName(ext), ModuleComponent(moduleName));
  }

  // ---------- service ----------

  const ServiceDir: Path := ["src", "services"]

  function ServiceFileName(lastStaticPath: string, ext: string): string {
    lastStaticPath + ".service." + ext
  }

  function ServiceName(lastStaticPath: string): string {
    TextToCamelCase(lastStaticPath, '-') + "Service"
  }

  /** `generateService`: `services/<lastStaticPath>.service.<ext>`, whatever the segment, even "". */
  function ServiceStep(d: Disk, lastStaticPath: string, ext: string): Step<Outcome> {
    Emit(d, ServiceDir, ServiceFileName(lastStaticPath, ext), ServiceObject(ServiceName(lastStaticPath)))
  }

  method GenerateService(fs: FileSystem, lastStaticPath: string, ext: string)
    returns (r: Result<Outcome, Error>)
    modifies fs
    ensures Step(fs.State(), r) == ServiceStep(old(fs.State()), lastStaticPath, ext)
  {
    r := EmitFile(fs, ServiceDir, ServiceFileName(lastStaticPath, ext),
      ServiceObject(ServiceName(lastStaticPath)));
  }

  // ---------- type ----------

  /** `src/types/.gitkeep`, the placeholder removed before the first type file. */
  const Gitkeep: Path := ["src", "types", ".gitkeep"]

  /** `path.join(cwd, "src", "types", parentPath || lastStaticPath)`. */
  function TypeDir(parentPath: string, lastStaticPath: string): Path {
    Under(["src", "types"], if parentPath != "" then parentPath else lastStaticPath)
  }

  function TypeFileName(ext: string): string {
    "index.type." + ext
  }

  function TypeName(lastStaticPath: string): string {
    UpperCamelCase(lastStaticPath, '-') + "Type"
  }

  /** The type directory lies inside the placeholder's path, which the step removes first. */
  predicate Shadowed(parentPath: string, lastStaticPath: string) {
    Below(Gitkeep, TypeDir(parentPath, lastStaticPath))
  }

  /**
   * `generateTypescriptType`: nothing unless the extension is "ts"; then
   * remove `src/types/.gitkeep` if it exists (whether or not the type file
   * does), and emit `index.type.ts` in the type directory.
   */
  function TypeStep(d: Disk, parentPath: string, lastStaticPath: string, ext: string): (s: Step<Outcome>)
    ensures ext != "ts" ==> s == Step(d, Ok(Off))
    ensures ext == "ts" && s.result.Ok? ==>
      Emitted(s.disk, TypeDir(parentPath, lastStaticPath), TypeFileName(ext), s.result.value,
        TypeInterface(TypeName(lastStaticPath)))
    ensures KeptOutside(d, s.disk, Gitkeep)
    ensures ext == "ts" ==> AddsOnly(d, s.disk, {TypeDir(parentPath, lastStaticPath) + [TypeFileName(ext)]},
      Prefixes(TypeDir(parentPath, lastStaticPath)))
  {
    if ext != "ts" then Step(d, Ok(Off))
    else
      var d1 := if Exists(d, Gitkeep) then RemoveTree(d, Gitkeep) else d;
      Emit(d1, TypeDir(parentPath, lastStaticPath), TypeFileName(ext),
        TypeInterface(TypeName(lastStaticPath)))
  }

  method GenerateTypescriptType(fs: FileSystem, parentPath: string, lastStaticPath: string, ext: string)
    returns (r: Result<Outcome, Error>)
    modifies fs
    ensures Step(fs.State(), r) == TypeStep(old(fs.State()), parentPath, lastStaticPath, ext)
  {
    if ext != "ts" {
      return Ok(Off);
    }
    var typePath := TypeDir(parentPath, lastStaticPath);
    if fs.ExistsSync(Gitkeep) {
      fs.RemoveSync(Gitkeep);
    }
    r := EmitFile(fs, typePath, TypeFileName(ext), TypeInterface(TypeName(lastStaticPath)));
  }

  /**
   * With the extension "ts", the type step leaves no `src/types/.gitkeep`
   * behind, whether or not the type file was already there, unless the type
   * directory itself lies inside that path.
   */
  lemma TypeStepRemovesGitkeep(d: Disk, parentPath: string, lastStaticPath: string)
    requires !Shadowed(parentPath, lastStaticPath)
    ensures !Exists(TypeStep(d, parentPath, lastStaticPath, "ts").disk, Gitkeep)
  {
    var dir, name := TypeDir(parentPath, lastStaticPath), TypeFileName("ts");
    var d1 := if Exists(d, Gitkeep) then RemoveTree(d, Gitkeep) else d;
    assert !Exists(d1, Gitkeep);
    assert Gitkeep !in Prefixes(dir);
    assert dir + [name] != Gitkeep by {
      if |dir + [name]| == |Gitkeep| {
        assert (dir + [name])[2] == name;
        assert name[0] != Gitkeep[2][0];
      }
    }
  }

  lemma TypeStepValid(d: Disk, parentPath: string, lastStaticPath: string, ext: string)
    requires Valid(d)
    ensures Valid(TypeStep(d, parentPath, lastStaticPath, ext).disk)
  {
    if ext == "ts" {
      RemoveTreeValid(d, Gitkeep);
      var d1 := if Exists(d, Gitkeep) then RemoveTree(d, Gitkeep) else d;
      EmitValid(d1, TypeDir(parentPath, lastStaticPath), TypeFileName(ext), TypeInterface(TypeName(lastStaticPath)));
    }
  }

  /**
   * Running the type step a second time changes nothing. It reports a skip,
   * except when the type directory lies inside `src/types/.gitkeep`: then
   * the removal deletes the type file and it is written again, identically.
   */
  lemma TypeStepAgain(d: Disk, parentPath: string, lastStaticPath: string, ext: string)
    requires Valid(d) && TypeStep(d, parentPath, lastStaticPath, ext).result.Ok?
    ensures var s := TypeStep(d, parentPath, lastStaticPath, ext);
      TypeStep(s.disk, parentPath, lastStaticPath, ext) ==
        Step(s.disk, Ok(if ext == "ts" && Shadowed(parentPath, lastStaticPath) then s.result.value
                        else AsSkip(s.result.value)))
  {
    if ext == "ts" {
      var g, dir, name := Gitkeep, TypeDir(parentPath, lastStaticPath), TypeFileName(ext);
      var c := TypeInterface(TypeName(lastStaticPath));
      var p := dir + [name];
      var r0 := RemoveTree(d, g);
      RemoveTreeValid(d, g);
      if !Exists(d, g) {
        RemoveAbsent(d, g);
      }
      assert TypeStep(d, parentPath, lastStaticPath, ext) == Emit(r0, dir, name, c);
      var e := Emit(r0, dir, name, c).disk;
      EmitValid(r0, dir, name, c);
      if Below(g, dir) {
        TypeStepShadowed(r0, dir, name, c);
      } else {
        assert p != g by {
          assert name[0] != g[2][0];
        }
        assert g !in Prefixes(dir);
        assert !Exists(e, g);
        EmitAgain(e, dir, name, c);
      }
    }
  }

  /** A created outcome read as skipped. */
  function AsSkip(o: Outcome): Outcome {
    if o.Created? then Skipped(o.path) else o
  }

  /**
   * The shadowed case of `TypeStepAgain`: on a disk with nothing under
   * `.gitkeep`, emitting under it and then removing `.gitkeep` and emitting
   * again ends where the first emission ended, reporting a creation.
   */
  lemma TypeStepShadowed(r0: Disk, dir: Path, name: string, c: Content)
    requires Valid(r0) && Below(Gitkeep, dir)
    requires forall p :: Exists(r0, p) ==> !Below(Gitkeep, p)
    requires Emit(r0, dir, name, c).result.Ok?
    ensures var e := Emit(r0, dir, name, c).disk;
      Exists(e, Gitkeep)
      && Emit(RemoveTree(e, Gitkeep), dir, name, c) == Step(e, Ok(Created(dir + [name])))
  {
    var g, p := Gitkeep, dir + [name];
    assert g == dir[..3];
    assert g in Prefixes(dir);
    assert !Exists(r0, p);
    var e := Emit(r0, dir, name, c).disk;
    assert e == WithFile(WithDir(r0, dir), p, c);
    var r1 := RemoveTree(e, g);
    assert r1.files == r0.files;
    assert r1.dirs + Prefixes(dir) == e.dirs;
    assert p !in Prefixes(dir);
  }

  // ---------- the orchestration after the route step ----------

  /**
   * The rest of `nextRouteGenerator` / `viteRouteGenerator` once the route
   * step `s1` has run: module, service, then type, each on the disk the
   * previous one left. The first step that throws ends the run, leaving the
   * files already written in place.
   */
  function Continue(s1: Step<Outcome>, parentPath: string, lastStaticPath: string, ext: string)
    : Step<seq<Outcome>>
  {
    if s1.result.Err? then Step(s1.disk, Err(s1.result.error))
    else
      var s2 := ModuleStep(s1.disk, parentPath, lastStaticPath, ext);
      if s2.result.Err? then Step(s2.disk, Err(s2.result.error))
      else
        var s3 := ServiceStep(s2.disk, lastStaticPath, ext);
        if s3.result.Err? then Step(s3.disk, Err(s3.result.error))
        else
          var s4 := TypeStep(s3.disk, parentPath, lastStaticPath, ext);
          if s4.result.Err? then Step(s4.disk, Err(s4.result.error))
          else Step(s4.disk, Ok([s1.result.value, s2.result.value, s3.result.value, s4.result.value]))
  }

  /** The orchestration's tail on the file system: the calls in source order, stopping at a throw. */
  method ContinueRun(fs: FileSystem, first: Outcome, parentPath: string, lastStaticPath: string, ext: string)
    returns (r: Result<seq<Outcome>, Error>)
    modifies fs
    ensures Step(fs.State(), r) == Continue(Step(old(fs.State()), Ok(first)), parentPath, lastStaticPath, ext)
  {
    var m := GenerateModule(fs, parentPath, lastStaticPath, ext);
    if m.Err? {
      return Err(m.error);
    }
    var s := GenerateService(fs, lastStaticPath, ext);
    if s.Err? {
      return Err(s.error);
    }
    var t := GenerateTypescriptType(fs, parentPath, lastStaticPath, ext);
    if t.Err? {
      return Err(t.error);
    }
    r := Ok([first, m.value, s.value, t.value]);
  }

  /** The files the tail may add: the module, the service and, for "ts", the type file. */
  function TailFiles(parentPath: string, lastStaticPath: string, ext: string): set<Path> {
    {ModuleDir(parentPath, lastStaticPath) + [ModuleFileName(ext)], ServiceDir + [ServiceFileName(lastStaticPath, ext)]}
      + (if ext == "ts" then {TypeDir(parentPath, lastStaticPath) + [TypeFileName(ext)]} else {})
  }

  /** The directories the tail may add: those of the module, the service and, for "ts", the type file. */
  function TailDirs(parentPath: string, lastStaticPath: string, ext: string): set<Path> {
    Prefixes(ModuleDir(parentPath, lastStaticPath)) + Prefixes(ServiceDir)
      + (if ext == "ts" then Prefixes(TypeDir(parentPath, lastStaticPath)) else {})
  }

  /** The tail adds no file and no directory besides its own targets and their directories. */
  lemma ContinueAddsOnly(s1: Step<Outcome>, parentPath: string, lastStaticPath: string, ext: string)
    ensures AddsOnly(s1.disk, Continue(s1, parentPath, lastStaticPath, ext).disk,
      TailFiles(parentPath, lastStaticPath, ext), TailDirs(parentPath, lastStaticPath, ext))
  {
    if s1.result.Ok? {
      var s2 := ModuleStep(s1.disk, parentPath, lastStaticPath, ext);
      if s2.result.Ok? {
        var s3 := ServiceStep(s2.disk, lastStaticPath, ext);
        if s3.result.Ok? {
          var s4 := TypeStep(s3.disk, parentPath, lastStaticPath, ext);
          assert AddsOnly(s3.disk, s4.disk,
            if ext == "ts" then {TypeDir(parentPath, lastStaticPath) + [TypeFileName(ext)]} else {},
            if ext == "ts" then Prefixes(TypeDir(parentPath, lastStaticPath)) else {});
        }
      }
    }
  }

  /** A route step that adds only its own target, followed by the tail, adds only the four targets. */
  lemma RunAddsOnly(d: Disk, s1: Step<Outcome>, dir: Path, name: string,
                    parentPath: string, lastStaticPath: string, ext: string)
    requires AddsOnly(d, s1.disk, {dir + [name]}, Prefixes(dir))
    ensures AddsOnly(d, Continue(s1, parentPath, lastStaticPath, ext).disk,
      {dir + [name]} + TailFiles(parentPath, lastStaticPath, ext),
      Prefixes(dir) + TailDirs(parentPath, lastStaticPath, ext))
  {
    ContinueAddsOnly(s1, parentPath, lastStaticPath, ext);
  }

  /** None of the route, module and service directories lies under `src/types`. */
  predicate OutsideTypes(dir: Path) {
    |dir| >= 2 && dir[0] == "src" && dir[1] != "types"
  }

  /** What an emission outside `src/types` established survives a later step that keeps that part of the disk. */
  lemma EmittedKept(e: Disk, e2: Disk, dir: Path, name: string, o: Outcome, c: Content)
    requires Emitted(e, dir, name, o, c) && KeptOutside(e, e2, Gitkeep) && OutsideTypes(dir)
    ensures Emitted(e2, dir, name, o, c)
  {
    assert (dir + [name])[1] == dir[1];
    forall q | q in Prefixes(dir) ensures q in e2.dirs {
      assert !Below(Gitkeep, q);
    }
  }

  lemma KeptTrans(a: Disk, b: Disk, c: Disk, g: Path)
    requires KeptOutside(a, b, g) && KeptOutside(b, c, g)
    ensures KeptOutside(a, c, g)
  {
  }

  /** The facts a successful tail leaves on the final disk `e` about its outcomes `os`. */
  predicate ContinueOk(parentPath: string, lastStaticPath: string, ext: string, e: Disk, os: seq<Outcome>) {
    && |os| == 4
    && Emitted(e, ModuleDir(parentPath, lastStaticPath), ModuleFileName(ext), os[1],
         ModuleComponent(ModuleName(lastStaticPath)))
    && Emitted(e, ServiceDir, ServiceFileName(lastStaticPath, ext), os[2],
         ServiceObject(ServiceName(lastStaticPath)))
    && (ext != "ts" ==> os[3] == Off)
    && (ext == "ts" ==> Emitted(e, TypeDir(parentPath, lastStaticPath), TypeFileName(ext), os[3],
         TypeInterface(TypeName(lastStaticPath))))
  }

  /**
   * The tail never overwrites: every file that existed before keeps its
   * content, and every directory stays, except inside `src/types/.gitkeep`
   * when the type step runs (with another extension, nothing at all is lost).
   */
  lemma ContinueKeeps(s1: Step<Outcome>, parentPath: string, lastStaticPath: string, ext: string)
    requires Valid(s1.disk)
    ensures var r := Continue(s1, parentPath, lastStaticPath, ext);
      && Valid(r.disk)
      && KeptOutside(s1.disk, r.disk, Gitkeep)
      && (ext != "ts" ==> Grows(s1.disk, r.disk))
  {
    if s1.result.Ok? {
      var s2 := ModuleStep(s1.disk, parentPath, lastStaticPath, ext);
      EmitValid(s1.disk, ModuleDir(parentPath, lastStaticPath), ModuleFileName(ext),
        ModuleComponent(ModuleName(lastStaticPath)));
      if s2.result.Ok? {
        var s3 := ServiceStep(s2.disk, lastStaticPath, ext);
        EmitValid(s2.disk, ServiceDir, ServiceFileName(lastStaticPath, ext),
          ServiceObject(ServiceName(lastStaticPath)));
        KeptTrans(s1.disk, s2.disk, s3.disk, Gitkeep);
        if s3.result.Ok? {
          var s4 := TypeStep(s3.disk, parentPath, lastStaticPath, ext);
          TypeStepValid(s3.disk, parentPath, lastStaticPath, ext);
          KeptTrans(s1.disk, s3.disk, s4.disk, Gitkeep);
        }
      }
    }
  }

  /**
   * On success the tail reports the route step's outcome first, and the
   * module, service and type files exist at their paths at the end, holding
   * the generated content where they were created.
   */
  lemma ContinueEffect(s1: Step<Outcome>, parentPath: string, lastStaticPath: string, ext: string)
    requires Continue(s1, parentPath, lastStaticPath, ext).result.Ok?
    ensures var r := Continue(s1, parentPath, lastStaticPath, ext);
      && s1.result.Ok? && r.result.value[0] == s1.result.value
      && ContinueOk(parentPath, lastStaticPath, ext, r.disk, r.result.value)
  {
    var s2 := ModuleStep(s1.disk, parentPath, lastStaticPath, ext);
    var s3 := ServiceStep(s2.disk, lastStaticPath, ext);
    var s4 := TypeStep(s3.disk, parentPath, lastStaticPath, ext);
    assert s1.result.Ok? && s2.result.Ok? && s3.result.Ok? && s4.result.Ok?;
    assert Continue(s1, parentPath, lastStaticPath, ext)
      == Step(s4.disk, Ok([s1.result.value, s2.result.value, s3.result.value, s4.result.value]));
    StepsOk(s2, s3, s4, parentPath, lastStaticPath, ext);
  }

  /** The module, service and type steps in a row, all successful, leave the three artifacts in place. */
  lemma StepsOk(s2: Step<Outcome>, s3: Step<Outcome>, s4: Step<Outcome>,
                parentPath: string, lastStaticPath: string, ext: string)
    requires s2.result.Ok? && s3.result.Ok? && s4.result.Ok?
    requires Emitted(s2.disk, ModuleDir(parentPath, lastStaticPath), ModuleFileName(ext), s2.result.value,
      ModuleComponent(ModuleName(lastStaticPath)))
    requires Emitted(s3.disk, ServiceDir, ServiceFileName(lastStaticPath, ext), s3.result.value,
      ServiceObject(ServiceName(lastStaticPath)))
    requires Grows(s2.disk, s3.disk)
    requires s4 == TypeStep(s3.disk, parentPath, lastStaticPath, ext)
    ensures ContinueOk(parentPath, lastStaticPath, ext, s4.disk,
      [Off, s2.result.value, s3.result.value, s4.result.value])
  {
    var mdir := ModuleDir(parentPath, lastStaticPath);
    KeptTrans(s2.disk, s3.disk, s4.disk, Gitkeep);
    EmittedKept(s2.disk, s4.disk, mdir, ModuleFileName(ext), s2.result.value, ModuleComponent(ModuleName(lastStaticPath)));
    EmittedKept(s3.disk, s4.disk, ServiceDir, ServiceFileName(lastStaticPath, ext), s3.result.value,
      ServiceObject(ServiceName(lastStaticPath)));
  }

  /**
   * Running the tail again on the disk it produced, after a route step that
   * reports `first` without changing that disk, changes nothing: the module
   * and service steps report skips, and the type step a skip or, inside
   * `.gitkeep`, the same creation.
   */
  lemma ContinueAgain(s1: Step<Outcome>, parentPath: string, lastStaticPath: string, ext: string, first: Outcome)
    requires Valid(s1.disk) && Continue(s1, parentPath, lastStaticPath, ext).result.Ok?
    ensures var r := Continue(s1, parentPath, lastStaticPath, ext);
      |r.result.value| == 4
      && Continue(Step(r.disk, Ok(first)), parentPath, lastStaticPath, ext)
        == Step(r.disk, Ok(Rerun(r.result.value, first, ext == "ts" && Shadowed(parentPath, lastStaticPath))))
  {
    var s2 := ModuleStep(s1.disk, parentPath, lastStaticPath, ext);
    var s3 := ServiceStep(s2.disk, lastStaticPath, ext);
    var r := Continue(s1, parentPath, lastStaticPath, ext);
    ContinueKeeps(s1, parentPath, lastStaticPath, ext);
    ContinueEffect(s1, parentPath, lastStaticPath, ext);
    EmitValid(s1.disk, ModuleDir(parentPath, lastStaticPath), ModuleFileName(ext),
      ModuleComponent(ModuleName(lastStaticPath)));
    EmitValid(s2.disk, ServiceDir, ServiceFileName(lastStaticPath, ext), ServiceObject(ServiceName(lastStaticPath)));
    EmitAgain(r.disk, ModuleDir(parentPath, lastStaticPath), ModuleFileName(ext),
      ModuleComponent(ModuleName(lastStaticPath)));
    EmitAgain(r.disk, ServiceDir, ServiceFileName(lastStaticPath, ext), ServiceObject(ServiceName(lastStaticPath)));
    TypeStepAgain(s3.disk, parentPath, lastStaticPath, ext);
  }

  /**
   * The outcomes of a second run: the route step's `first`, then the first
   * run's module, service and type outcomes read as skips, except a type
   * file that is `shadowed` by the `.gitkeep` removal and so created again.
   */
  function Rerun(os: seq<Outcome>, first: Outcome, shadowed: bool): seq<Outcome>
    requires |os| == 4
  {
    [first, AsSkip(os[1]), AsSkip(os[2]), if shadowed then os[3] else AsSkip(os[3])]
  }

  // ---------- connecting the names to the route ----------

  /**
   * The module directory of a route is `modules/<staticParentPath>`: since
   * the parent path always ends with the last static segment, the
   * segment is never appended a second time.
   */
  lemma ModuleDirOfRoute(route: string)
    ensures ModuleDir(StaticParent(route), LastStatic(route)) == ["src", "modules"] + StaticParts(route)
  {
    var parent := StaticParent(route);
    ParentEndsWithLast(route);
    SplitConcat(parent, "", '/');
    assert parent + "/" + "" == parent + ['/'] + "";
    assert Split("", '/') == [""];
    NonEmptyAppend(Split(parent, '/'), [""]);
    PartsOfParent(route);
  }

  /** The components of the parent path, empty ones dropped, are the static parts. */
  lemma PartsOfParent(route: string)
    ensures NonEmpty(Split(StaticParent(route), '/')) == StaticParts(route)
  {
    if StaticParent(route) == "" {
      ParentEmptyIffLastEmpty(route);
      LastStaticIsLastPart(route);
      assert Split("", '/') == [""];
      if StaticParts(route) != [] {
        StaticPartsShape(route);
      }
    } else {
      ParentComponents(route);
    }
  }

  /**
   * The type directory of a route is `types/<staticParentPath>`: the parent
   * path is "" only when the last static segment is "" too, so the
   * fallback `|| lastStaticPath` never changes the directory.
   */
  lemma TypeDirOfRoute(route: string)
    ensures TypeDir(StaticParent(route), LastStatic(route)) == ["src", "types"] + StaticParts(route)
  {
    ParentEmptyIffLastEmpty(route);
    PartsOfParent(route);
  }

  /**
   * The example of the comment beside the module path,
   * `/user/:id/:orders/create`: the module directory is `modules/user`,
   * since parts after the first dynamic part are never looked at.
   */
  lemma ModuleDirCommentExample()
    ensures var route := Join(["", "user", ":id", ":orders", "create"], "/");
      ModuleDir(StaticParent(route), LastStatic(route)) == ["src", "modules", "user"]
  {
    var parts := ["", "user", ":id", ":orders", "create"];
    var route := Join(parts, "/");
    SplitJoin(parts, '/');
    assert RoutePaths.IsDynamicPart(":id");
    assert FirstDynamic(parts[2..]) == 0;
    assert FirstDynamic(parts) == 2;
    assert parts[..2] == ["", "user"];
    assert NonEmpty(["", "user"]) == ["user"];
    ModuleDirOfRoute(route);
  }


  /**
   * For a route, the type directory lies inside `src/types/.gitkeep` exactly
   * when the route's first static part is `.gitkeep`.
   */
  lemma ShadowedOfRoute(route: string)
    ensures Shadowed(StaticParent(route), LastStatic(route))
      <==> StaticParts(route) != [] && StaticParts(route)[0] == ".gitkeep"
  {
    TypeDirOfRoute(route);
    var ps := StaticParts(route);
    var dir := ["src", "types"] + ps;
    if ps != [] {
      assert dir[..3] == ["src", "types", ps[0]];
      assert Gitkeep <= dir <==> Gitkeep == dir[..3];
    } else {
      assert |dir| < |Gitkeep|;
    }
  }

  /**
   * A successful tail for a route, stated in the route's terms: the module
   * and type files sit in `modules/<static parts>` and `types/<static parts>`,
   * and the service is named after the last static segment.
   */
  lemma RouteContinueOk(route: string, ext: string, e: Disk, os: seq<Outcome>)
    requires ContinueOk(StaticParent(route), LastStatic(route), ext, e, os)
    ensures var last, parts := LastStatic(route), StaticParts(route);
      && |os| == 4
      && Emitted(e, ["src", "modules"] + parts, "index." + ext + "x", os[1],
           ModuleComponent(UpperCamelCase(last, '-') + "Module"))
      && Emitted(e, ["src", "services"], last + ".service." + ext, os[2],
           ServiceObject(TextToCamelCase(last, '-') + "Service"))
      && (ext != "ts" ==> os[3] == Off)
      && (ext == "ts" ==> Emitted(e, ["src", "types"] + parts, "index.type.ts", os[3],
           TypeInterface(UpperCamelCase(last, '-') + "Type")))
  {
    var parent, last, parts := StaticParent(route), LastStatic(route), StaticParts(route);
    ModuleDirOfRoute(route);
    var mdir := ModuleDir(parent, last);
    assert mdir == ["src", "modules"] + parts;
    assert Emitted(e, mdir, ModuleFileName(ext), os[1], ModuleComponent(ModuleName(last)));
    assert Emitted(e, ServiceDir, ServiceFileName(last, ext), os[2], ServiceObject(ServiceName(last)));
    if ext == "ts" {
      TypeDirOfRoute(route);
      var tdir := TypeDir(parent, last);
      assert tdir == ["src", "types"] + parts;
      assert TypeFileName(ext) == "index.type.ts";
      assert Emitted(e, tdir, TypeFileName(ext), os[3], TypeInterface(TypeName(last)));
    }
  }

  /** The tail's targets for a route: everything sits under `modules/<static parts>`, `services` and `types/<static parts>`. */
  lemma TailOfRoute(route: string, ext: string)
    ensures var last, parts := LastStatic(route), StaticParts(route);
      && TailFiles(StaticParent(route), last, ext)
        == {["src", "modules"] + parts + ["index." + ext + "x"], ["src", "services", last + ".service." + ext]}
           + (if ext == "ts" then {["src", "types"] + parts + ["index.type.ts"]} else {})
      && TailDirs(StaticParent(route), last, ext)
        == Prefixes(["src", "modules"] + parts) + Prefixes(["src", "services"])
           + (if ext == "ts" then Prefixes(["src", "types"] + parts) else {})
  {
    var parent, last, parts := StaticParent(route), LastStatic(route), StaticParts(route);
    ModuleDirOfRoute(route);
    TypeDirOfRoute(route);
    var mdir, tdir := ModuleDir(parent, last), TypeDir(parent, last);
    assert mdir + [ModuleFileName(ext)] == ["src", "modules"] + parts + ["index." + ext + "x"];
    assert ServiceDir + [ServiceFileName(last, ext)] == ["src", "services", last + ".service." + ext];
    if ext == "ts" {
      assert TypeFileName(ext) == "index.type.ts";
      assert tdir + [TypeFileName(ext)] == ["src", "types"] + parts + ["index.type.ts"];
    }
  }

  /**
   * A successful tail with no static segment: the module sits directly in
   * `src/modules`, the service file is `.service.<ext>`, and the type file
   * sits directly in `src/types`.
   */
  lemma NoStaticContinueOk(ext: string, e: Disk, os: seq<Outcome>)
    requires ContinueOk("", "", ext, e, os)
    ensures |os| == 4
    ensures At(os[1], ["src", "modules", "index." + ext + "x"])
    ensures At(os[2], ["src", "services", ".service." + ext])
    ensures ext == "ts" ==> At(os[3], ["src", "types", "index.type.ts"])
  {
    assert "" + "/" + "" == "/";
    assert Split("/", '/') == ["", ""] by {
      assert Split("", '/') == [""];
      SplitConcat("", "", '/');
    }
    assert ModuleDir("", "") == ["src", "modules"];
    assert TypeDir("", "") == ["src", "types"] by {
      assert Split("", '/') == [""];
    }
    assert "" + ".service." + ext == ".service." + ext;
    if ext == "ts" {
      assert TypeFileName(ext) == "index.type.ts";
      assert ["src", "types"] + ["index.type.ts"] == ["src", "types", "index.type.ts"];
    }
  }
}

/**
 * The part of `fs-extra` the route generators use, over an abstract disk: a
 * map from path to file content plus a set of directories. Paths are
 * sequences of components relative to the working directory (`[]` is the
 * working directory itself). The pure functions give the meaning of each
 * call; the `FileSystem` class performs the calls in place, each method
 * proved to have exactly that effect.
 */
module Files {

  type Path = seq<string>

  /**
   * What a file holds. The generators' templates are recorded by the
   * identifiers and paths spliced into them; every other file (hand-written,
   * edited, or a placeholder) is plain text.
   */
  datatype Content =
    | Text(text: string)
      /** The fixed `Page` component of a Next.js `page.<ext>x`. */
    | NextPage
      /**
       * A TanStack file route: the `createFileRoute` key, whether `useParams`
       * is imported and called, the destructured names, and the route shown
       * in the greeting.
       */
    | FileRoute(key: string, usesParams: bool, params: seq<string>, route: string)
    | ModuleComponent(name: string)
    | ServiceObject(name: string)
    | TypeInterface(name: string)

  datatype Disk = Disk(files: map<Path, Content>, dirs: set<Path>)

  /** `q` is `p` or lies below it. */
  predicate Below(p: Path, q: Path) {
    p <= q
  }

  /** The non-empty prefixes of `p`: every directory `mkdir -p p` needs. */
  function Prefixes(p: Path): (r: set<Path>)
    ensures p != [] ==> p in r
    ensures forall i :: 1 <= i <= |p| ==> p[..i] in r
    ensures forall q :: q in r ==> 1 <= |q| <= |p| && q == p[..|q|]
  {
    assert p != [] ==> p[..|p|] == p;
    set i | 1 <= i <= |p| :: p[..i]
  }

  /** `fs.existsSync(p)`: a file or a directory is there. */
  predicate Exists(d: Disk, p: Path) {
    p in d.files || p in d.dirs
  }

  /**
   * A well-formed disk: nothing is both a file and a directory, nothing sits
   * at the working directory itself, and every proper ancestor of a file or
   * directory is a directory.
   */
  predicate Valid(d: Disk) {
    && d.files.Keys !! d.dirs
    && [] !in d.files && [] !in d.dirs
    && (forall p, i :: p in d.files && 1 <= i < |p| ==> p[..i] in d.dirs)
    && (forall p, i :: p in d.dirs && 1 <= i < |p| ==> p[..i] in d.dirs)
  }

  /** `fs.ensureDirSync(dir)` succeeds unless some component of `dir` is a file. */
  predicate CanEnsureDir(d: Disk, dir: Path) {
    forall i :: 1 <= i <= |dir| ==> dir[..i] !in d.files
  }

  /** The disk after a successful `fs.ensureDirSync(dir)`. */
  function WithDir(d: Disk, dir: Path): Disk {
    d.(dirs := d.dirs + Prefixes(dir))
  }

  /** The disk after `fs.writeFileSync(p, c)`. */
  function WithFile(d: Disk, p: Path, c: Content): Disk {
    d.(files := d.files[p := c])
  }

  /** The disk after `fs.removeSync(g)`: `g` and everything below it are gone. */
  function RemoveTree(d: Disk, g: Path): (r: Disk)
    ensures forall p :: p in r.files <==> p in d.files && !Below(g, p)
    ensures forall p :: p in r.files ==> r.files[p] == d.files[p]
    ensures forall p :: p in r.dirs <==> p in d.dirs && !Below(g, p)
  {
    Disk(map p | p in d.files && !Below(g, p) :: d.files[p],
         set p | p in d.dirs && !Below(g, p))
  }

  /** A successful `ensureDirSync` keeps the disk well-formed and makes every component a directory. */
  lemma WithDirValid(d: Disk, dir: Path)
    requires Valid(d) && CanEnsureDir(d, dir)
    ensures Valid(WithDir(d, dir))
    ensures Prefixes(dir) <= WithDir(d, dir).dirs
  {
    var e := WithDir(d, dir);
    forall q | q in Prefixes(dir) ensures q !in d.files {
      assert q == dir[..|q|];
    }
    forall p, i | p in e.dirs && 1 <= i < |p| ensures p[..i] in e.dirs {
      if p in Prefixes(dir) {
        assert p[..i] == dir[..i];
      }
    }
  }

  /** Writing a new file into an existing directory keeps the disk well-formed. */
  lemma WithFileValid(d: Disk, dir: Path, name: string, c: Content)
    requires Valid(d) && Prefixes(dir) <= d.dirs
    requires !Exists(d, dir + [name])
    ensures Valid(WithFile(d, dir + [name], c))
  {
    var p := dir + [name];
    forall i | 1 <= i < |p| ensures p[..i] in d.dirs {
      assert p[..i] == dir[..i];
    }
  }

  /** Removing a subtree keeps the disk well-formed. */
  lemma RemoveTreeValid(d: Disk, g: Path)
    requires Valid(d)
    ensures Valid(RemoveTree(d, g))
  {
    var r := RemoveTree(d, g);
    forall p, i | (p in r.files || p in r.dirs) && 1 <= i < |p| ensures p[..i] in r.dirs {
      assert p[..i] in d.dirs;
    }
  }

  /** On a well-formed disk, removing a path that does not exist changes nothing. */
  lemma RemoveAbsent(d: Disk, g: Path)
    requires Valid(d) && g != [] && !Exists(d, g)
    ensures RemoveTree(d, g) == d
  {
    var r := RemoveTree(d, g);
    forall p | p in d.files || p in d.dirs ensures !Below(g, p) {
      if |g| < |p| {
        assert p[..|g|] in d.dirs;
        assert p[..|g|] != g;
      } else {
        assert g <= p ==> g == p;
      }
    }
    assert r.files == d.files;
    assert r.dirs == d.dirs;
  }

  /** `ensureDirSync` on a directory that already exists succeeds and changes nothing. */
  lemma EnsureExistingDir(d: Disk, dir: Path)
    requires Valid(d) && Prefixes(dir) <= d.dirs
    ensures CanEnsureDir(d, dir)
    ensures WithDir(d, dir) == d
  {
    forall i | 1 <= i <= |dir| ensures dir[..i] !in d.files {
      assert dir[..i] in Prefixes(dir);
    }
    assert d.dirs + Prefixes(dir) == d.dirs;
  }

  /**
   * The working tree as the generators see it: `files` and `dirs` are
   * updated in place by the `fs-extra` calls below.
   */
  class FileSystem {
    var files: map<Path, Content>
    var dirs: set<Path>

    function State(): Disk
      reads this
    {
      Disk(files, dirs)
    }

    constructor (d: Disk)
      ensures State() == d
    {
      files, dirs := d.files, d.dirs;
    }

    /** `fs.existsSync(p)`. */
    predicate ExistsSync(p: Path)
      reads this
    {
      Exists(State(), p)
    }

    /**
     * `fs.ensureDirSync(dir)`: `mkdir -p`. Returns false, changing nothing,
     * where the call throws because a component is a file.
     */
    method EnsureDirSync(dir: Path) returns (ok: bool)
      modifies this
      ensures ok == CanEnsureDir(old(State()), dir)
      ensures State() == if ok then WithDir(old(State()), dir) else old(State())
    {
      ok := forall i | 1 <= i <= |dir| :: dir[..i] !in files;
      if ok {
        dirs := dirs + Prefixes(dir);
      }
    }

    /** `fs.writeFileSync(p, c)` on a path that is not a directory. */
    method WriteFileSync(p: Path, c: Content)
      requires p !in dirs
      modifies this
      ensures State() == WithFile(old(State()), p, c)
    {
      files := files[p := c];
    }

    /** `fs.removeSync(g)`: removes `g` and everything below it. */
    method RemoveSync(g: Path)
      modifies this
      ensures State() == RemoveTree(old(State()), g)
    {
      files := map p | p in files && !Below(g, p) :: files[p];
      dirs := set p | p in dirs && !Below(g, p);
    }
  }
}

/** An abstract file system: the set of existing regular files and the set
    of existing directories, each named by its path string. */
module Files {

  datatype FsState = FsState(files: set<string>, dirs: set<string>) {

    /** No path names both a regular file and a directory. */
    predicate Valid() {
      files !! dirs
    }

    /** `os.path.isfile(p)`: `p` names an existing regular file, which is in
        particular an existing path. */
    predicate IsFile(p: string)
      ensures IsFile(p) ==> PathExists(p)
    {
      p in files
    }

    /** `os.path.exists(p)`: `p` names something that exists, of any kind;
        in a valid state an existing path is exactly one of a regular file
        and a directory. */
    predicate PathExists(p: string)
      ensures Valid() && PathExists(p) ==> (p in files <==> p !in dirs)
    {
      p in files || p in dirs
    }

    /** An exclusive creation of `name` inside `folder` succeeds: the folder
        is an existing directory (so, in a valid state, not a regular file)
        and nothing named `name` exists, so the two are never the same path. */
    predicate CanCreate(folder: string, name: string)
      ensures CanCreate(folder, name) ==> PathExists(folder) && !PathExists(name) && folder != name
      ensures Valid() && CanCreate(folder, name) ==> !IsFile(folder)
    {
      folder in dirs && !PathExists(name)
    }
  }

  /** The file system as the conversion functions change it: files are only
      ever added, by exclusive creation. */
  class FileSystem {
    var files: set<string>
    var dirs: set<string>

    /** The real file system never has a path that is both a regular file
        and a directory; the constructor establishes this and
        `CreateExclusive` preserves it. */
    ghost predicate Valid()
      reads this
    {
      State().Valid()
    }

    function State(): FsState
      reads this
    {
      FsState(files, dirs)
    }

    constructor (files: set<string>, dirs: set<string>)
      requires files !! dirs
      ensures Valid() && State() == FsState(files, dirs)
    {
      this.files := files;
      this.dirs := dirs;
    }

    /** `io.FileIO(name, 'x')` for a `name` inside `folder`: creates `name`
        as a new regular file; fails when `folder` is not an existing
        directory, or (`FileExistsError`) when anything named `name` already
        exists. */
    method CreateExclusive(folder: string, name: string) returns (created: bool)
      requires Valid()
      modifies this
      ensures Valid()
      ensures created <==> old(State()).CanCreate(folder, name)
      ensures files == if created then old(files) + {name} else old(files)
      ensures dirs == old(dirs)
    {
      created := folder in dirs && name !in files && name !in dirs;
      if created {
        files := files + {name};
      }
    }
  }
}

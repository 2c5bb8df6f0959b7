/** The file system as the tool sees it. Nothing about real paths is
    assumed: which paths name regular files or directories, what a path
    canonicalises to, how a directory and a name are joined and what a
    path's parent is are arbitrary total functions, and the files that can
    be opened for reading are the keys of a finite map to their content. */
module Platform {

  type Path = string

  datatype FileSystem = FileSystem(
    contents: map<Path, string>,      // files `ifstream::open` succeeds on
    isRegularFile: Path -> bool,      // fs::is_regular_file
    isDirectory: Path -> bool,        // fs::is_directory
    canonical: Path -> Path,          // fs::canonical
    join: (Path, Path) -> Path,       // operator/ on fs::path
    parentPath: Path -> Path)         // fs::path::parent_path

  /** Whether `ifstream::open` succeeds on `p`. */
  predicate CanOpen(fs: FileSystem, p: Path) {
    p in fs.contents
  }
}

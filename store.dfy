/**
 * What both visualiser scripts read: the repository's `.git` directory seen
 * as two maps, the tree-entry record they build, and the loose-object
 * layout that turns an object id into a file path.
 */
module Store {
  import opened Text

  /** The exceptions the scripts let escape, as values. */
  datatype Error =
    | NotFound(path: string)   // FileNotFoundError from `open`
    | BadPath(path: string)    // ValueError from `open`: the path holds a NUL character
    | IsADirectory(path: string) // IsADirectoryError from `open`: the path names a directory
    | IndexError               // a field index past the end of a `split` result
    | RecursionLimit           // the traversal went deeper than the fuel allows

  datatype Result<T> = Ok(value: T) | Err(error: Error)

  /**
   * The repository as the scripts see it. `objects` maps the path of each
   * loose object file to the text that decompressing it and decoding the
   * bytes as UTF-8 yields; `files` maps the path of each other file under
   * `.git` (HEAD, branch refs) to the text a text-mode read returns; `dirs`
   * holds the paths of the directories (`.git`, `.git/objects/ab`, ...),
   * each written without a trailing `/`.
   */
  datatype Repo = Repo(objects: map<string, string>, files: map<string, string>, dirs: set<string>)

  /** `path` names one of `dirs`, with or without a trailing `/`. */
  predicate IsDirectory(dirs: set<string>, path: string)
  {
    path in dirs || (path != [] && path[|path| - 1] == '/' && path[..|path| - 1] in dirs)
  }

  /** One line of a tree listing, as the dictionary `{'mode', 'name', 'hash'}`. */
  datatype Entry = Entry(mode: string, name: string, hash: string)

  /**
   * `open(path)` followed by reading the whole file, on the files `m` holds
   * and the directories `dirs`. Python refuses a path with an embedded NUL
   * before it looks at the file system; a directory cannot be opened as a
   * file; otherwise a path that is not there raises FileNotFoundError.
   */
  function Open(m: map<string, string>, dirs: set<string>, path: string): (r: Result<string>)
    ensures '\0' in path <==> r == Err(BadPath(path))
    ensures '\0' !in path ==> (IsDirectory(dirs, path) <==> r == Err(IsADirectory(path)))
    ensures '\0' !in path && !IsDirectory(dirs, path) ==> (path in m <==> r.Ok?)
    ensures r.Err? && '\0' !in path && !IsDirectory(dirs, path) ==> r == Err(NotFound(path))
    ensures r.Ok? ==> path in m && r.value == m[path]
  {
    if '\0' in path then Err(BadPath(path))
    else if IsDirectory(dirs, path) then Err(IsADirectory(path))
    else if path in m then Ok(m[path])
    else Err(NotFound(path))
  }

  const ObjectsDir: string := ".git/objects/"

  /**
   * The loose-object path of `hash`: the first two characters name the
   * directory, the rest the file.
   */
  function ObjectPath(hash: string): (path: string)
    ensures StartsWith(path, ObjectsDir)
    ensures |path| == |ObjectsDir| + |hash| + 1
  {
    ObjectsDir + Take(hash, 2) + "/" + Drop(hash, 2)
  }

  /** The directory and file name of an object path recombine to the id. */
  lemma ObjectPathParts(hash: string)
    ensures var k := |Take(hash, 2)|;
            var path := ObjectPath(hash);
            path[|ObjectsDir| + k] == '/' &&
            path[|ObjectsDir|..|ObjectsDir| + k] + path[|ObjectsDir| + k + 1..] == hash
  {
    var k := |Take(hash, 2)|;
    var path := ObjectPath(hash);
    var n := |ObjectsDir|;
    assert path[n..n + k] == Take(hash, 2);
    assert path[n + k + 1..] == Drop(hash, 2);
    TakeDrop(hash, 2);
  }

  /** Distinct object ids never share a loose-object path. */
  lemma ObjectPathInjective(h1: string, h2: string)
    requires ObjectPath(h1) == ObjectPath(h2)
    ensures h1 == h2
  {
    assert |h1| == |h2|;
    ObjectPathParts(h1);
    ObjectPathParts(h2);
    assert |Take(h1, 2)| == |Take(h2, 2)|;
  }

  /** An object path holds a NUL exactly when the object id does. */
  lemma ObjectPathNul(hash: string)
    ensures '\0' in ObjectPath(hash) <==> '\0' in hash
  {
    TakeDrop(hash, 2);
    assert '\0' !in ObjectsDir;
    assert ObjectPath(hash) == ObjectsDir + (Take(hash, 2) + "/" + Drop(hash, 2));
  }
}

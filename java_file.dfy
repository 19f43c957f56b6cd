/** The parts of java.io.File, on a Unix file system, that the core relies on. */
module JavaFile {
  import opened JavaText

  /** `File.separator` on Unix. */
  const Separator := "/"

  /**
    `new File(path).getAbsolutePath()` where `workDir` is the JVM's working directory
    (`user.dir`): an absolute path is kept, the empty path is the working directory,
    and a relative path is appended to it with one separator.
  */
  function AbsolutePath(workDir: string, path: string): (r: string)
    ensures StartsWith(path, Separator) ==> r == path
    ensures path == "" ==> r == workDir
    ensures !StartsWith(path, Separator) && path != "" ==>
              EndsWith(r, Separator + path) && StartsWith(r, workDir)
    ensures !StartsWith(path, Separator) && path != "" && workDir != Separator ==> r == workDir + Separator + path
    ensures !StartsWith(path, Separator) && path != "" && workDir == Separator ==> r == Separator + path
  {
    if StartsWith(path, Separator) then path
    else if path == "" then workDir
    else if workDir == Separator then workDir + path
    else workDir + Separator + path
  }

  /** `new File(path).getName()`: the text after the last separator. */
  function GetName(path: string): (r: string)
    ensures '/' !in r
    ensures EndsWith(path, r)
    ensures |r| < |path| ==> path[|path| - |r| - 1] == '/'
  {
    path[LastIndexOf(path, '/') + 1..]
  }

  /** A name joined to a directory is read back by GetName, when the name holds no separator. */
  lemma GetNameOfChild(dir: string, name: string)
    requires '/' !in name
    ensures GetName(dir + Separator + name) == name
  {
    var p := dir + Separator + name;
    assert p[|dir|] == '/';
    assert p[|dir| + 1..] == name;
  }

  /** Under an absolute working directory every result is absolute, and resolving it again changes nothing. */
  lemma AbsolutePathIdempotent(workDir: string, path: string)
    requires StartsWith(workDir, Separator)
    ensures StartsWith(AbsolutePath(workDir, path), Separator)
    ensures AbsolutePath(workDir, AbsolutePath(workDir, path)) == AbsolutePath(workDir, path)
  {
    var r := AbsolutePath(workDir, path);
    if !StartsWith(path, Separator) && path != "" {
      assert r[..1] == workDir[..1];
    }
  }

  /** Resolving a plain file name keeps it as the last component. */
  lemma AbsolutePathKeepsName(workDir: string, name: string)
    requires '/' !in name && name != ""
    ensures GetName(AbsolutePath(workDir, name)) == name
  {
    assert !StartsWith(name, Separator) by {
      assert name[0] in name;
    }
    if workDir == Separator {
      assert Separator + name == "" + Separator + name;
      GetNameOfChild("", name);
    } else {
      GetNameOfChild(workDir, name);
    }
  }
}

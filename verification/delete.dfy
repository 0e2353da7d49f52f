/**
 * The `delete` command: ask the server to delete a vault entry, and only
 * when it agrees delete the local entry from the file repository.
 */
module Delete {
  import opened Common
  import FileStore

  /**
   * The server request for `filename`: "/delete?name" followed directly by
   * the name. There is no '=' between the query key and the name.
   */
  function Target(filename: string): (t: string)
    ensures |t| == |filename| + 12
    ensures t[..12] == "/delete?name" && t[12..] == filename
  {
    "/delete?name" + filename
  }

  /** Different names give different requests. */
  lemma TargetInjective(a: string, b: string)
    requires Target(a) == Target(b)
    ensures a == b
  {
    assert a == Target(a)[12..];
  }

  /** The HTTP client's Delete: `fault` fixes the error the server's answer turns into. */
  class Remote {
    const fault: string -> Option<Error>
    var requests: seq<string>

    constructor (fault: string -> Option<Error>)
      ensures this.fault == fault && requests == []
    {
      this.fault := fault;
      requests := [];
    }

    method Delete(target: string) returns (err: Option<Error>)
      modifies this
      ensures requests == old(requests) + [target] && err == fault(target)
    {
      requests := requests + [target];
      err := fault(target);
    }
  }

  /** `delete.Run(repo, filename, http)`. */
  method Run(repo: FileStore.FileSystemRepository, filename: string, http: Remote) returns (err: Option<Error>)
    modifies repo, http
    ensures http.requests == old(http.requests) + [Target(filename)]
    ensures http.fault(Target(filename)).Some? ==>
              err == http.fault(Target(filename)) && repo.entries == old(repo.entries)
    ensures http.fault(Target(filename)).None? && filename == "" && old(repo.entries) != map[] ==>
              err == Some(PathError("remove", repo.GetPath(filename))) && repo.entries == old(repo.entries)
    ensures http.fault(Target(filename)).None? && filename == "" && old(repo.entries) == map[] ==>
              err == None && repo.entries == old(repo.entries)
    ensures http.fault(Target(filename)).None? && filename != "" && filename !in old(repo.entries) ==>
              err == Some(FileNotFound) && repo.entries == old(repo.entries)
    ensures http.fault(Target(filename)).None? && filename != "" && filename in old(repo.entries) ==>
              err == None && repo.entries == old(repo.entries) - {filename}
    ensures err == None <==>
              http.fault(Target(filename)) == None && (filename in old(repo.entries) || (filename == "" && old(repo.entries) == map[]))
  {
    err := http.Delete(Target(filename));
    if err.Some? {
      return;
    }
    err := repo.Delete(filename);
  }
}

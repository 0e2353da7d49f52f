/**
 * One reconciliation pass of the local vault against the server
 * (`sync.Run`): read the last checkpoint, delete locally what the server
 * marks deleted, download what is missing locally, then save a new
 * checkpoint.
 *
 * The three collaborators the pass talks to (the local file repository,
 * the checkpoint store and the HTTP client) are one object, `Host`, so
 * that the calls made to them are recorded in one log in the order they
 * happen. What the collaborators answer is fixed by `Env`: the server's
 * responses, the JSON decoding of `ExtractRows`, the path mapping and
 * the faults each call may report. The pure function `Pass` states what
 * the whole pass does; the method `Run` is proved to do exactly that,
 * and the lemmas below state the reconciliation rules about `Pass`.
 */
module Sync {
  import opened Common

  /** One entry of the server's `/uploads` listing. */
  datatype Row = Row(uuid: string, name: string, category: string, size: int,
                     contentType: string, description: string)

  /** A point in time; `ZeroTime` is Go's `time.Time{}`. */
  datatype Instant = Instant(seconds: int)

  const ZeroTime := Instant(0)

  /**
   * The time operations the pass uses: `now.Format("2006-01-02")`,
   * `time.Parse(time.RFC3339, s)` and `now.AddDate(-1, 0, 0)`.
   */
  datatype Clock = Clock(
    formatDate: Instant -> string,
    parseRFC3339: string -> Option<Instant>,
    yearBefore: Instant -> Instant)

  /**
   * The two layout facts the proofs use: a date formatted as 2006-01-02
   * is shorter than 19 characters, and the RFC 3339 layout accepts nothing
   * shorter than 19 characters. The first holds for every year of at most
   * seven digits: years 0 to 9999 give 10 characters, and each further
   * digit or a minus sign adds one. In the second, the four-digit year,
   * two-digit month, day, minute and second, the separators and the zone
   * "Z" are required, and only the hour may have a single digit, as in
   * 2006-01-02T1:04:05Z.
   */
  ghost predicate Layouts(c: Clock) {
    && (forall t :: |c.formatDate(t)| < 19)
    && (forall s :: |s| < 19 ==> c.parseRFC3339(s) == None)
  }

  /**
   * How the collaborators answer: `getPath` is the repository's GetPath,
   * `fetch` the server's reply to a GET, `extractRows` the decoding of a
   * reply, and each `...Fault` the error a call reports (None: success).
   */
  datatype Env = Env(
    getPath: string -> string,
    deleteFault: string -> Option<Error>,
    fetch: (string, map<string, string>) -> Result<Bytes>,
    extractRows: Bytes -> Result<seq<Row>>,
    downloadFault: (string, string) -> Option<Error>,
    saveFault: (string, string) -> Option<Error>,
    clock: Clock)

  /** A call the pass makes to one of its collaborators. */
  datatype Call =
    | ReadCheckpoint(user: string)
    | Query(endpoint: string, params: map<string, string>)
    | Remove(name: string)
    | Download(url: string, path: string)
    | SaveCheckpoint(user: string, content: string)

  const Uploads := "/uploads"

  /** The download URL of a vault entry. */
  function FileUrl(name: string): (url: string)
    ensures |url| == 11 + |name| && url[..11] == "/file?name=" && url[11..] == name
  {
    "/file?name=" + name
  }

  /** Go's `time.Parse` result with its error discarded: the zero time when parsing fails. */
  function ParseOrZero(c: Clock, s: string): (t: Instant)
    ensures c.parseRFC3339(s).Some? ==> t == c.parseRFC3339(s).value
    ensures c.parseRFC3339(s).None? ==> t == ZeroTime
  {
    match c.parseRFC3339(s)
    case Some(t) => t
    case None => ZeroTime
  }

  /** The start of the query window: one year back without a checkpoint, else the parsed checkpoint. */
  function WindowStart(env: Env, checkpoints: map<string, string>, user: string, now: Instant): Instant
  {
    if user in checkpoints then ParseOrZero(env.clock, checkpoints[user]) else env.clock.yearBefore(now)
  }

  /** The query parameters of the first `/uploads` request: deleted rows uploaded since `since`. */
  function DeletedQuery(since: string): map<string, string>
  {
    map["deleted" := "true", "uploaded_at" := since]
  }

  /** The parameters of a pass's first query. */
  function FirstQuery(env: Env, checkpoints: map<string, string>, user: string, now: Instant): map<string, string>
  {
    DeletedQuery(env.clock.formatDate(WindowStart(env, checkpoints, user, now)))
  }

  /** The parameters of the second query: the first ones with `deleted` switched to "false". */
  function SecondQuery(q1: map<string, string>): map<string, string>
  {
    q1["deleted" := "false"]
  }

  /** A GET of `/uploads` followed by `ExtractRows`: the rows, or the error of either step. */
  function Listing(env: Env, params: map<string, string>): Result<seq<Row>>
  {
    match env.fetch(Uploads, params)
    case Err(e) => Err(e)
    case Ok(body) => env.extractRows(body)
  }

  /** The local paths of the rows' names. */
  function PathsOf(env: Env, rows: seq<Row>): set<string>
  {
    if rows == [] then {} else {env.getPath(rows[0].name)} + PathsOf(env, rows[1..])
  }

  /** The local paths after a loop, the calls it made, and the error it stopped at. */
  datatype Progress = Progress(paths: set<string>, calls: seq<Call>, err: Option<Error>)

  /**
   * The delete loop: a row whose name exists locally is deleted, other rows
   * are skipped, and the first failing delete ends the loop.
   */
  function DeleteAll(env: Env, paths: set<string>, rows: seq<Row>): Progress
    decreases |rows|
  {
    if rows == [] then Progress(paths, [], None)
    else
      var name := rows[0].name;
      if env.getPath(name) !in paths then DeleteAll(env, paths, rows[1..])
      else
        match env.deleteFault(name)
        case Some(e) => Progress(paths, [Remove(name)], Some(e))
        case None =>
          var rest := DeleteAll(env, paths - {env.getPath(name)}, rows[1..]);
          Progress(rest.paths, [Remove(name)] + rest.calls, rest.err)
  }

  /**
   * The download loop: a row whose name is missing locally is downloaded to
   * its local path, other rows are skipped, and the first failing download
   * ends the loop.
   */
  function DownloadAll(env: Env, paths: set<string>, rows: seq<Row>): Progress
    decreases |rows|
  {
    if rows == [] then Progress(paths, [], None)
    else
      var name := rows[0].name;
      var path := env.getPath(name);
      if path in paths then DownloadAll(env, paths, rows[1..])
      else
        var url := FileUrl(name);
        match env.downloadFault(url, path)
        case Some(e) => Progress(paths, [Download(url, path)], Some(e))
        case None =>
          var rest := DownloadAll(env, paths + {path}, rows[1..]);
          Progress(rest.paths, [Download(url, path)] + rest.calls, rest.err)
  }

  /** The local paths, the checkpoints, the calls made and the error returned by one pass. */
  datatype Outcome = Outcome(paths: set<string>, checkpoints: map<string, string>, calls: seq<Call>, err: Option<Error>)

  /** One whole pass of `sync.Run` for `user` at time `now`. */
  function Pass(env: Env, user: string, now: Instant, paths: set<string>, checkpoints: map<string, string>): Outcome
  {
    var q1 := FirstQuery(env, checkpoints, user, now);
    var head := [ReadCheckpoint(user), Query(Uploads, q1)];
    match Listing(env, q1)
    case Err(e) => Outcome(paths, checkpoints, head, Some(e))
    case Ok(deleted) =>
      var r := Reconciliation(env, user, now, q1, paths, checkpoints, deleted);
      Outcome(r.paths, r.checkpoints, head + r.calls, r.err)
  }

  /** The pass after the first query: the delete loop, then the second query and what follows it. */
  function Reconciliation(env: Env, user: string, now: Instant, q1: map<string, string>,
                     paths: set<string>, checkpoints: map<string, string>, deleted: seq<Row>): Outcome
  {
    var d := DeleteAll(env, paths, deleted);
    if d.err.Some? then Outcome(d.paths, checkpoints, d.calls, d.err)
    else
      var q2 := SecondQuery(q1);
      var r := Refresh(env, user, now, q2, d.paths, checkpoints);
      Outcome(r.paths, r.checkpoints, d.calls + [Query(Uploads, q2)] + r.calls, r.err)
  }

  /** The pass after the second query is sent: the download loop, then the checkpoint. */
  function Refresh(env: Env, user: string, now: Instant, q2: map<string, string>,
                   paths: set<string>, checkpoints: map<string, string>): Outcome
  {
    match Listing(env, q2)
    case Err(e) => Outcome(paths, checkpoints, [], Some(e))
    case Ok(added) =>
      var n := DownloadAll(env, paths, added);
      if n.err.Some? then Outcome(n.paths, checkpoints, n.calls, n.err)
      else
        var stamp := env.clock.formatDate(now);
        var calls := n.calls + [SaveCheckpoint(user, stamp)];
        match env.saveFault(user, stamp)
        case Some(e) => Outcome(n.paths, checkpoints, calls, Some(e))
        case None => Outcome(n.paths, checkpoints[user := stamp], calls, None)
  }

  /**
   * The collaborators of one pass. `paths` holds the local vault's files
   * (a name exists when its path is present), `checkpoints` the checkpoint
   * store, and `calls` every call made to either of them or to the server.
   */
  class Host {
    const env: Env
    var paths: set<string>
    var checkpoints: map<string, string>
    var calls: seq<Call>

    constructor (env: Env, paths: set<string>, checkpoints: map<string, string>)
      ensures this.env == env && this.paths == paths && this.checkpoints == checkpoints && calls == []
    {
      this.env := env;
      this.paths := paths;
      this.checkpoints := checkpoints;
      calls := [];
    }

    function GetPath(name: string): (path: string)
    {
      env.getPath(name)
    }

    method Exists(name: string) returns (b: bool)
      ensures b <==> GetPath(name) in paths
    {
      b := GetPath(name) in paths;
    }

    method Delete(name: string) returns (err: Option<Error>)
      modifies this
      ensures err == env.deleteFault(name)
      ensures paths == if err.None? then old(paths) - {GetPath(name)} else old(paths)
      ensures checkpoints == old(checkpoints) && calls == old(calls) + [Remove(name)]
    {
      err := env.deleteFault(name);
      if err.None? {
        paths := paths - {GetPath(name)};
      }
      calls := calls + [Remove(name)];
    }

    /** The stored checkpoint; reading an absent one fails with ErrFileNotFound. */
    method GetFileContent(user: string) returns (content: string, err: Option<Error>)
      modifies this
      ensures user in checkpoints ==> content == checkpoints[user] && err == None
      ensures user !in checkpoints ==> content == "" && err == Some(FileNotFound)
      ensures paths == old(paths) && checkpoints == old(checkpoints) && calls == old(calls) + [ReadCheckpoint(user)]
    {
      if user in checkpoints {
        content, err := checkpoints[user], None;
      } else {
        content, err := "", Some(FileNotFound);
      }
      calls := calls + [ReadCheckpoint(user)];
    }

    method Save(user: string, content: string) returns (err: Option<Error>)
      modifies this
      ensures err == env.saveFault(user, content)
      ensures checkpoints == if err.None? then old(checkpoints)[user := content] else old(checkpoints)
      ensures paths == old(paths) && calls == old(calls) + [SaveCheckpoint(user, content)]
    {
      err := env.saveFault(user, content);
      if err.None? {
        checkpoints := checkpoints[user := content];
      }
      calls := calls + [SaveCheckpoint(user, content)];
    }

    method Get(endpoint: string, params: map<string, string>) returns (body: Result<Bytes>)
      modifies this
      ensures body == env.fetch(endpoint, params)
      ensures paths == old(paths) && checkpoints == old(checkpoints) && calls == old(calls) + [Query(endpoint, params)]
    {
      body := env.fetch(endpoint, params);
      calls := calls + [Query(endpoint, params)];
    }

    /** Fetch `url` into the local file `path`; on success the file exists. */
    method DownloadFile(url: string, path: string) returns (err: Option<Error>)
      modifies this
      ensures err == env.downloadFault(url, path)
      ensures paths == if err.None? then old(paths) + {path} else old(paths)
      ensures checkpoints == old(checkpoints) && calls == old(calls) + [Download(url, path)]
    {
      err := env.downloadFault(url, path);
      if err.None? {
        paths := paths + {path};
      }
      calls := calls + [Download(url, path)];
    }
  }

  /** The delete loop of `Run`, over the rows the server marks deleted. */
  method RemoveDeleted(h: Host, rows: seq<Row>) returns (err: Option<Error>)
    modifies h
    ensures var r := DeleteAll(h.env, old(h.paths), rows);
            h.paths == r.paths && h.calls == old(h.calls) + r.calls && err == r.err
    ensures h.checkpoints == old(h.checkpoints)
  {
    ghost var whole := DeleteAll(h.env, h.paths, rows);
    var i := 0;
    while i < |rows|
      invariant 0 <= i <= |rows|
      invariant h.checkpoints == old(h.checkpoints)
      invariant var r := DeleteAll(h.env, h.paths, rows[i..]);
                r.paths == whole.paths && r.err == whole.err && h.calls + r.calls == old(h.calls) + whole.calls
    {
      var name := rows[i].name;
      assert rows[i..][1..] == rows[i + 1..];
      var present := h.Exists(name);
      if present {
        err := h.Delete(name);
        if err.Some? {
          return;
        }
      }
      i := i + 1;
    }
    err := None;
  }

  /** The download loop of `Run`, over the rows the server does not mark deleted. */
  method FetchMissing(h: Host, rows: seq<Row>) returns (err: Option<Error>)
    modifies h
    ensures var r := DownloadAll(h.env, old(h.paths), rows);
            h.paths == r.paths && h.calls == old(h.calls) + r.calls && err == r.err
    ensures h.checkpoints == old(h.checkpoints)
  {
    ghost var whole := DownloadAll(h.env, h.paths, rows);
    var i := 0;
    while i < |rows|
      invariant 0 <= i <= |rows|
      invariant h.checkpoints == old(h.checkpoints)
      invariant var r := DownloadAll(h.env, h.paths, rows[i..]);
                r.paths == whole.paths && r.err == whole.err && h.calls + r.calls == old(h.calls) + whole.calls
    {
      var name := rows[i].name;
      assert rows[i..][1..] == rows[i + 1..];
      var present := h.Exists(name);
      if !present {
        var url := FileUrl(name);
        var path := h.GetPath(name);
        err := h.DownloadFile(url, path);
        if err.Some? {
          return;
        }
      }
      i := i + 1;
    }
    err := None;
  }

  /** `sync.Run`: one reconciliation pass, exactly as `Pass` describes it. */
  method Run(user: string, h: Host, now: Instant) returns (err: Option<Error>)
    modifies h
    ensures var o := Pass(h.env, user, now, old(h.paths), old(h.checkpoints));
            h.paths == o.paths && h.checkpoints == o.checkpoints && h.calls == old(h.calls) + o.calls && err == o.err
  {
    ghost var checkpoints0 := h.checkpoints;
    var updatedAt := h.env.clock.yearBefore(now);
    var prevSync, readErr := h.GetFileContent(user);
    if readErr == None {
      updatedAt := ParseOrZero(h.env.clock, prevSync);
    }
    var params := DeletedQuery(h.env.clock.formatDate(updatedAt));
    assert params == FirstQuery(h.env, checkpoints0, user, now);
    var deletedResponse := h.Get(Uploads, params);
    if deletedResponse.Err? {
      return Some(deletedResponse.error);
    }
    var deletedFiles := h.env.extractRows(deletedResponse.value);
    assert Listing(h.env, params) == deletedFiles;
    if deletedFiles.Err? {
      return Some(deletedFiles.error);
    }
    err := Reconcile(h, user, now, params, deletedFiles.value);
  }

  /** The rest of `Run` after the first `/uploads` reply is decoded: the delete loop and what follows it. */
  method Reconcile(h: Host, user: string, now: Instant, params: map<string, string>, deletedFiles: seq<Row>)
    returns (err: Option<Error>)
    modifies h
    ensures var o := Reconciliation(h.env, user, now, params, old(h.paths), old(h.checkpoints), deletedFiles);
            h.paths == o.paths && h.checkpoints == o.checkpoints && h.calls == old(h.calls) + o.calls && err == o.err
  {
    err := RemoveDeleted(h, deletedFiles);
    if err.Some? {
      return;
    }
    ghost var calls1 := h.calls;
    err := DownloadNew(h, user, now, SecondQuery(params));
    assert h.calls == calls1 + ([Query(Uploads, SecondQuery(params))] + (h.calls[|calls1| + 1..]));
  }

  /** The rest of `Run` from the second `/uploads` query on: the download loop, then the checkpoint. */
  method DownloadNew(h: Host, user: string, now: Instant, params: map<string, string>) returns (err: Option<Error>)
    modifies h
    ensures var o := Refresh(h.env, user, now, params, old(h.paths), old(h.checkpoints));
            h.paths == o.paths && h.checkpoints == o.checkpoints
            && h.calls == old(h.calls) + [Query(Uploads, params)] + o.calls && err == o.err
  {
    var newResponse := h.Get(Uploads, params);
    if newResponse.Err? {
      return Some(newResponse.error);
    }
    var newFiles := h.env.extractRows(newResponse.value);
    assert Listing(h.env, params) == newFiles;
    if newFiles.Err? {
      return Some(newFiles.error);
    }
    err := FetchMissing(h, newFiles.value);
    if err.Some? {
      return;
    }
    err := h.Save(user, h.env.clock.formatDate(now));
  }
}

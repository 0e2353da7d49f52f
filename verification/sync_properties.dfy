/**
 * The reconciliation rules of `sync.Run`, stated and proved about the
 * pure description `Sync.Pass` that the method `Sync.Run` is proved to
 * follow.
 */
module SyncProperties {
  import opened Common
  import opened Sync

  /** The rows' names include `n`. */
  predicate Lists(rows: seq<Row>, n: string)
  {
    exists i :: 0 <= i < |rows| && rows[i].name == n
  }

  // ---------------------------------------------------------------- delete loop

  /**
   * Gating: every call of the delete loop is a `Delete` of a listed name
   * whose file existed, and the loop only ever removes files.
   */
  lemma {:induction false} DeleteAllOnlyRemovesListedExisting(env: Env, paths: set<string>, rows: seq<Row>)
    ensures var r := DeleteAll(env, paths, rows);
            && r.paths <= paths
            && (forall k :: 0 <= k < |r.calls| ==>
                  r.calls[k].Remove? && env.getPath(r.calls[k].name) in paths && Lists(rows, r.calls[k].name))
    decreases |rows|
  {
    if rows != [] {
      var name := rows[0].name;
      assert Lists(rows, name) by { assert rows[0].name == name; }
      forall n | Lists(rows[1..], n)
        ensures Lists(rows, n)
      {
        var i :| 0 <= i < |rows[1..]| && rows[1..][i].name == n;
        assert rows[i + 1].name == n;
      }
      if env.getPath(name) !in paths {
        DeleteAllOnlyRemovesListedExisting(env, paths, rows[1..]);
      } else if env.deleteFault(name).None? {
        DeleteAllOnlyRemovesListedExisting(env, paths - {env.getPath(name)}, rows[1..]);
        var rest := DeleteAll(env, paths - {env.getPath(name)}, rows[1..]);
        assert DeleteAll(env, paths, rows).calls == [Remove(name)] + rest.calls;
      }
    }
  }

  /** A delete loop that finishes leaves exactly the files that were not listed. */
  lemma {:induction false} DeleteAllSuccess(env: Env, paths: set<string>, rows: seq<Row>)
    requires DeleteAll(env, paths, rows).err == None
    ensures DeleteAll(env, paths, rows).paths == paths - PathsOf(env, rows)
    decreases |rows|
  {
    if rows != [] {
      var name := rows[0].name;
      if env.getPath(name) !in paths {
        DeleteAllSuccess(env, paths, rows[1..]);
      } else {
        DeleteAllSuccess(env, paths - {env.getPath(name)}, rows[1..]);
      }
    }
  }

  /**
   * Fail-fast: when the delete loop reports an error, its last call is the
   * `Delete` that failed with that error and every earlier `Delete` succeeded.
   */
  lemma {:induction false} DeleteAllStopsAtFirstFailure(env: Env, paths: set<string>, rows: seq<Row>)
    requires DeleteAll(env, paths, rows).err.Some?
    ensures var r := DeleteAll(env, paths, rows);
            && |r.calls| > 0
            && r.calls[|r.calls| - 1].Remove?
            && env.deleteFault(r.calls[|r.calls| - 1].name) == r.err
            && (forall k :: 0 <= k < |r.calls| - 1 ==> r.calls[k].Remove? && env.deleteFault(r.calls[k].name) == None)
    decreases |rows|
  {
    var name := rows[0].name;
    if env.getPath(name) !in paths {
      DeleteAllStopsAtFirstFailure(env, paths, rows[1..]);
    } else if env.deleteFault(name).None? {
      DeleteAllStopsAtFirstFailure(env, paths - {env.getPath(name)}, rows[1..]);
    }
  }

  /** When no listed name exists locally, the delete loop calls nothing and changes nothing. */
  lemma {:induction false} DeleteAllSkipsAbsent(env: Env, paths: set<string>, rows: seq<Row>)
    requires forall i :: 0 <= i < |rows| ==> env.getPath(rows[i].name) !in paths
    ensures DeleteAll(env, paths, rows) == Progress(paths, [], None)
    decreases |rows|
  {
    if rows != [] {
      DeleteAllSkipsAbsent(env, paths, rows[1..]);
    }
  }

  // -------------------------------------------------------------- download loop

  /**
   * Gating: every call of the download loop fetches `/file?name=<n>` into
   * `GetPath(n)` for a listed name `n` whose file was missing, and the loop
   * only ever adds files.
   */
  lemma {:induction false} DownloadAllOnlyFetchesListedMissing(env: Env, paths: set<string>, rows: seq<Row>)
    ensures var r := DownloadAll(env, paths, rows);
            && paths <= r.paths
            && (forall k :: 0 <= k < |r.calls| ==>
                  exists i :: 0 <= i < |rows| && r.calls[k] == Download(FileUrl(rows[i].name), env.getPath(rows[i].name))
                                              && env.getPath(rows[i].name) !in paths)
    decreases |rows|
  {
    if rows != [] {
      var name := rows[0].name;
      var path := env.getPath(name);
      if path in paths {
        DownloadAllOnlyFetchesListedMissing(env, paths, rows[1..]);
        var r := DownloadAll(env, paths, rows[1..]);
        forall k | 0 <= k < |r.calls|
          ensures exists i :: 0 <= i < |rows| && r.calls[k] == Download(FileUrl(rows[i].name), env.getPath(rows[i].name))
                                            && env.getPath(rows[i].name) !in paths
        {
          var i :| 0 <= i < |rows[1..]| && r.calls[k] == Download(FileUrl(rows[1..][i].name), env.getPath(rows[1..][i].name))
                                        && env.getPath(rows[1..][i].name) !in paths;
          assert rows[1..][i] == rows[i + 1];
        }
      } else if env.downloadFault(FileUrl(name), path).Some? {
        assert DownloadAll(env, paths, rows).calls[0] == Download(FileUrl(rows[0].name), env.getPath(rows[0].name));
      } else {
        var more := paths + {path};
        DownloadAllOnlyFetchesListedMissing(env, more, rows[1..]);
        var rest := DownloadAll(env, more, rows[1..]);
        var r := DownloadAll(env, paths, rows);
        assert r.calls == [Download(FileUrl(name), path)] + rest.calls;
        forall k | 0 <= k < |r.calls|
          ensures exists i :: 0 <= i < |rows| && r.calls[k] == Download(FileUrl(rows[i].name), env.getPath(rows[i].name))
                                            && env.getPath(rows[i].name) !in paths
        {
          if k == 0 {
            assert r.calls[0] == Download(FileUrl(rows[0].name), env.getPath(rows[0].name));
          } else {
            var i :| 0 <= i < |rows[1..]| && rest.calls[k - 1] == Download(FileUrl(rows[1..][i].name), env.getPath(rows[1..][i].name))
                                          && env.getPath(rows[1..][i].name) !in more;
            assert rows[1..][i] == rows[i + 1];
          }
        }
      }
    }
  }

  /** A download loop that finishes leaves every listed file present and adds nothing else. */
  lemma {:induction false} DownloadAllSuccess(env: Env, paths: set<string>, rows: seq<Row>)
    requires DownloadAll(env, paths, rows).err == None
    ensures DownloadAll(env, paths, rows).paths == paths + PathsOf(env, rows)
    decreases |rows|
  {
    if rows != [] {
      var path := env.getPath(rows[0].name);
      if path in paths {
        DownloadAllSuccess(env, paths, rows[1..]);
      } else {
        DownloadAllSuccess(env, paths + {path}, rows[1..]);
      }
    }
  }

  /**
   * Fail-fast: when the download loop reports an error, its last call is the
   * download that failed with that error and every earlier one succeeded.
   */
  lemma {:induction false} DownloadAllStopsAtFirstFailure(env: Env, paths: set<string>, rows: seq<Row>)
    requires DownloadAll(env, paths, rows).err.Some?
    ensures var r := DownloadAll(env, paths, rows);
            && |r.calls| > 0
            && r.calls[|r.calls| - 1].Download?
            && env.downloadFault(r.calls[|r.calls| - 1].url, r.calls[|r.calls| - 1].path) == r.err
            && (forall k :: 0 <= k < |r.calls| - 1 ==> r.calls[k].Download? && env.downloadFault(r.calls[k].url, r.calls[k].path) == None)
    decreases |rows|
  {
    var path := env.getPath(rows[0].name);
    if path in paths {
      DownloadAllStopsAtFirstFailure(env, paths, rows[1..]);
    } else if env.downloadFault(FileUrl(rows[0].name), path).None? {
      DownloadAllStopsAtFirstFailure(env, paths + {path}, rows[1..]);
    }
  }

  /** When every listed name already exists locally, the download loop calls nothing and changes nothing. */
  lemma {:induction false} DownloadAllSkipsPresent(env: Env, paths: set<string>, rows: seq<Row>)
    requires forall i :: 0 <= i < |rows| ==> env.getPath(rows[i].name) in paths
    ensures DownloadAll(env, paths, rows) == Progress(paths, [], None)
    decreases |rows|
  {
    if rows != [] {
      DownloadAllSkipsPresent(env, paths, rows[1..]);
    }
  }

  // ------------------------------------------------------------------ whole pass

  /**
   * The delete loop over `a + b` is the loop over `a`, then, only if that
   * finished, the loop over `b` from where it left the files.
   */
  lemma {:induction false} DeleteAllAppend(env: Env, paths: set<string>, a: seq<Row>, b: seq<Row>)
    ensures var ra := DeleteAll(env, paths, a);
            ra.err.Some? ==> DeleteAll(env, paths, a + b) == ra
    ensures var ra := DeleteAll(env, paths, a);
            var rb := DeleteAll(env, ra.paths, b);
            ra.err.None? ==> DeleteAll(env, paths, a + b) == Progress(rb.paths, ra.calls + rb.calls, rb.err)
    decreases |a|
  {
    if a == [] {
      assert a + b == b;
    } else {
      assert (a + b)[0] == a[0];
      assert (a + b)[1..] == a[1..] + b;
      var path := env.getPath(a[0].name);
      if path !in paths {
        DeleteAllAppend(env, paths, a[1..], b);
      } else if env.deleteFault(a[0].name).None? {
        DeleteAllAppend(env, paths - {path}, a[1..], b);
      }
    }
  }

  /**
   * Completeness of the delete loop: a listed row whose file is present when
   * the loop reaches it, all earlier deletes having succeeded, is deleted by
   * the very next call.
   */
  lemma DeleteAllRemovesEveryPresent(env: Env, paths: set<string>, rows: seq<Row>, i: nat)
    requires i < |rows|
    requires DeleteAll(env, paths, rows[..i]).err == None
    requires env.getPath(rows[i].name) in paths - PathsOf(env, rows[..i])
    ensures var before := DeleteAll(env, paths, rows[..i]);
            var r := DeleteAll(env, paths, rows);
            |before.calls| < |r.calls| && r.calls[|before.calls|] == Remove(rows[i].name)
  {
    assert rows == rows[..i] + rows[i..];
    DeleteAllAppend(env, paths, rows[..i], rows[i..]);
    DeleteAllSuccess(env, paths, rows[..i]);
    assert rows[i..][0] == rows[i];
  }

  /**
   * The download loop over `a + b` is the loop over `a`, then, only if that
   * finished, the loop over `b` from where it left the files.
   */
  lemma {:induction false} DownloadAllAppend(env: Env, paths: set<string>, a: seq<Row>, b: seq<Row>)
    ensures var ra := DownloadAll(env, paths, a);
            ra.err.Some? ==> DownloadAll(env, paths, a + b) == ra
    ensures var ra := DownloadAll(env, paths, a);
            var rb := DownloadAll(env, ra.paths, b);
            ra.err.None? ==> DownloadAll(env, paths, a + b) == Progress(rb.paths, ra.calls + rb.calls, rb.err)
    decreases |a|
  {
    if a == [] {
      assert a + b == b;
    } else {
      assert (a + b)[0] == a[0];
      assert (a + b)[1..] == a[1..] + b;
      var path := env.getPath(a[0].name);
      if path in paths {
        DownloadAllAppend(env, paths, a[1..], b);
      } else if env.downloadFault(FileUrl(a[0].name), path).None? {
        DownloadAllAppend(env, paths + {path}, a[1..], b);
      }
    }
  }

  /**
   * Completeness of the download loop: a listed row whose file is missing
   * when the loop reaches it, all earlier downloads having succeeded, is
   * fetched from `/file?name=<n>` into its local path by the very next call.
   */
  lemma DownloadAllFetchesEveryMissing(env: Env, paths: set<string>, rows: seq<Row>, i: nat)
    requires i < |rows|
    requires DownloadAll(env, paths, rows[..i]).err == None
    requires env.getPath(rows[i].name) !in paths + PathsOf(env, rows[..i])
    ensures var before := DownloadAll(env, paths, rows[..i]);
            var r := DownloadAll(env, paths, rows);
            && |before.calls| < |r.calls|
            && r.calls[|before.calls|] == Download(FileUrl(rows[i].name), env.getPath(rows[i].name))
  {
    assert rows == rows[..i] + rows[i..];
    DownloadAllAppend(env, paths, rows[..i], rows[i..]);
    DownloadAllSuccess(env, paths, rows[..i]);
    assert rows[i..][0] == rows[i];
  }

  /** The order in which a pass makes its kinds of call. */
  function Phase(c: Call): nat
  {
    match c
    case ReadCheckpoint(_) => 0
    case Query(_, params) => if "deleted" in params && params["deleted"] == "true" then 1 else 3
    case Remove(_) => 2
    case Download(_, _) => 4
    case SaveCheckpoint(_, _) => 5
  }

  predicate InPhaseOrder(calls: seq<Call>)
  {
    forall i, j :: 0 <= i < j < |calls| ==> Phase(calls[i]) <= Phase(calls[j])
  }

  /** Calls of phases up to `p` followed by calls of phases from `p` on keep the phase order. */
  lemma ConcatInPhaseOrder(a: seq<Call>, b: seq<Call>, p: nat)
    requires InPhaseOrder(a) && (forall k :: 0 <= k < |a| ==> Phase(a[k]) <= p)
    requires InPhaseOrder(b) && (forall k :: 0 <= k < |b| ==> p <= Phase(b[k]))
    ensures InPhaseOrder(a + b)
  {
    forall i, j | 0 <= i < j < |a + b|
      ensures Phase((a + b)[i]) <= Phase((a + b)[j])
    {
      if i < |a| && j >= |a| {
        assert Phase((a + b)[i]) <= p <= Phase((a + b)[j]);
      } else if i >= |a| {
        assert (a + b)[i] == b[i - |a|] && (a + b)[j] == b[j - |a|];
      }
    }
  }

  /** The calls after the second query: downloads, then at most one checkpoint save, in that order. */
  lemma RefreshOrder(env: Env, user: string, now: Instant, q2: map<string, string>,
                     paths: set<string>, checkpoints: map<string, string>)
    ensures var r := Refresh(env, user, now, q2, paths, checkpoints);
            && InPhaseOrder(r.calls)
            && (forall k :: 0 <= k < |r.calls| ==> 4 <= Phase(r.calls[k]))
            && (forall k :: 0 <= k < |r.calls| - 1 ==> r.calls[k].Download?)
  {
    match Listing(env, q2)
    case Err(_) =>
    case Ok(added) =>
      var n := DownloadAll(env, paths, added);
      DownloadAllOnlyDownloads(env, paths, added);
      forall k | 0 <= k < |n.calls|
        ensures Phase(n.calls[k]) == 4
      {
        assert n.calls[k].Download?;
      }
      if n.err.None? {
        var stamp := env.clock.formatDate(now);
        ConcatInPhaseOrder(n.calls, [SaveCheckpoint(user, stamp)], 4);
      }
  }

  /** The download loop makes nothing but downloads. */
  lemma {:induction false} DownloadAllOnlyDownloads(env: Env, paths: set<string>, rows: seq<Row>)
    ensures forall k :: 0 <= k < |DownloadAll(env, paths, rows).calls| ==> DownloadAll(env, paths, rows).calls[k].Download?
    decreases |rows|
  {
    if rows != [] {
      var path := env.getPath(rows[0].name);
      if path in paths {
        DownloadAllOnlyDownloads(env, paths, rows[1..]);
      } else {
        DownloadAllOnlyDownloads(env, paths + {path}, rows[1..]);
      }
    }
  }

  /**
   * The calls after the first query: deletions, then the second query
   * (the first one's parameters with `deleted` set to "false"), then
   * downloads and the checkpoint save, in that order.
   */
  lemma ReconciliationOrder(env: Env, user: string, now: Instant, q1: map<string, string>,
                            paths: set<string>, checkpoints: map<string, string>, deleted: seq<Row>)
    ensures var r := Reconciliation(env, user, now, q1, paths, checkpoints, deleted);
            && InPhaseOrder(r.calls)
            && (forall k :: 0 <= k < |r.calls| ==> 2 <= Phase(r.calls[k]))
            && (forall k :: 0 <= k < |r.calls| && r.calls[k].Query? ==> r.calls[k] == Query(Uploads, SecondQuery(q1)))
  {
    var d := DeleteAll(env, paths, deleted);
    DeleteAllOnlyRemovesListedExisting(env, paths, deleted);
    assert InPhaseOrder(d.calls);
    if d.err.None? {
      var q2 := SecondQuery(q1);
      var rest := Refresh(env, user, now, q2, d.paths, checkpoints);
      RefreshOrder(env, user, now, q2, d.paths, checkpoints);
      assert Phase(Query(Uploads, q2)) == 3;
      ConcatInPhaseOrder(d.calls, [Query(Uploads, q2)], 2);
      ConcatInPhaseOrder(d.calls + [Query(Uploads, q2)], rest.calls, 3);
    }
  }

  /**
   * Order of operations: the checkpoint is read, then the deleted rows are
   * queried, then come the local deletions, then the query for new rows,
   * then the downloads, then the checkpoint save. Both queries go to
   * `/uploads` with the same `uploaded_at` and differ only in `deleted`.
   */
  lemma PassOrder(env: Env, user: string, now: Instant, paths: set<string>, checkpoints: map<string, string>)
    ensures var o := Pass(env, user, now, paths, checkpoints);
            var q1 := FirstQuery(env, checkpoints, user, now);
            && InPhaseOrder(o.calls)
            && |o.calls| >= 2 && o.calls[0] == ReadCheckpoint(user) && o.calls[1] == Query(Uploads, q1)
            && q1["deleted"] == "true"
            && (forall k :: 2 <= k < |o.calls| && o.calls[k].Query? ==> o.calls[k] == Query(Uploads, SecondQuery(q1)))
            && SecondQuery(q1)["deleted"] == "false"
            && SecondQuery(q1)["uploaded_at"] == q1["uploaded_at"]
  {
    var q1 := FirstQuery(env, checkpoints, user, now);
    var head := [ReadCheckpoint(user), Query(Uploads, q1)];
    assert Phase(head[0]) == 0 && Phase(head[1]) == 1;
    match Listing(env, q1)
    case Err(_) =>
    case Ok(deleted) =>
      var r := Reconciliation(env, user, now, q1, paths, checkpoints, deleted);
      ReconciliationOrder(env, user, now, q1, paths, checkpoints, deleted);
      ConcatInPhaseOrder(head, r.calls, 2);
      assert Pass(env, user, now, paths, checkpoints).calls == head + r.calls;
  }

  /** If the first query or its decoding fails, the error is returned and nothing local changes. */
  lemma FirstQueryFailureChangesNothing(env: Env, user: string, now: Instant, paths: set<string>, checkpoints: map<string, string>)
    requires Listing(env, FirstQuery(env, checkpoints, user, now)).Err?
    ensures var o := Pass(env, user, now, paths, checkpoints);
            && o.paths == paths && o.checkpoints == checkpoints
            && o.calls == [ReadCheckpoint(user), Query(Uploads, FirstQuery(env, checkpoints, user, now))]
            && o.err == Some(Listing(env, FirstQuery(env, checkpoints, user, now)).error)
  {
  }

  /**
   * A failing local delete ends the pass with its error: the second query
   * is never sent, nothing is downloaded and the checkpoint is not saved.
   */
  lemma DeleteFailureEndsPass(env: Env, user: string, now: Instant, paths: set<string>, checkpoints: map<string, string>,
                              deleted: seq<Row>)
    requires Listing(env, FirstQuery(env, checkpoints, user, now)) == Ok(deleted)
    requires DeleteAll(env, paths, deleted).err.Some?
    ensures var o := Pass(env, user, now, paths, checkpoints);
            && o.err == DeleteAll(env, paths, deleted).err
            && o.checkpoints == checkpoints
            && (forall k :: 2 <= k < |o.calls| ==> o.calls[k].Remove?)
  {
    DeleteAllOnlyRemovesListedExisting(env, paths, deleted);
  }

  /**
   * A failing second query, or a reply to it that does not decode, ends the
   * pass with that error: the query is the last call, so nothing is
   * downloaded and no checkpoint is saved, and the checkpoints are unchanged.
   */
  lemma SecondQueryFailureEndsPass(env: Env, user: string, now: Instant, paths: set<string>,
                                   checkpoints: map<string, string>, deleted: seq<Row>)
    requires Listing(env, FirstQuery(env, checkpoints, user, now)) == Ok(deleted)
    requires DeleteAll(env, paths, deleted).err == None
    requires Listing(env, SecondQuery(FirstQuery(env, checkpoints, user, now))).Err?
    ensures var o := Pass(env, user, now, paths, checkpoints);
            var q2 := SecondQuery(FirstQuery(env, checkpoints, user, now));
            && o.err == Some(Listing(env, q2).error)
            && o.checkpoints == checkpoints
            && o.paths == DeleteAll(env, paths, deleted).paths
            && |o.calls| > 0 && o.calls[|o.calls| - 1] == Query(Uploads, q2)
  {
  }

  /**
   * A failing download ends the pass with its error: nothing after it is
   * downloaded, no checkpoint is saved at all, and the checkpoints are
   * unchanged.
   */
  lemma DownloadFailureEndsPass(env: Env, user: string, now: Instant, paths: set<string>, checkpoints: map<string, string>,
                                deleted: seq<Row>, added: seq<Row>)
    requires Listing(env, FirstQuery(env, checkpoints, user, now)) == Ok(deleted)
    requires DeleteAll(env, paths, deleted).err == None
    requires Listing(env, SecondQuery(FirstQuery(env, checkpoints, user, now))) == Ok(added)
    requires DownloadAll(env, DeleteAll(env, paths, deleted).paths, added).err.Some?
    ensures var o := Pass(env, user, now, paths, checkpoints);
            && o.err == DownloadAll(env, DeleteAll(env, paths, deleted).paths, added).err
            && o.checkpoints == checkpoints
            && o.calls[|o.calls| - 1].Download?
            && (forall k :: 0 <= k < |o.calls| ==> !o.calls[k].SaveCheckpoint?)
  {
    var q1 := FirstQuery(env, checkpoints, user, now);
    var d := DeleteAll(env, paths, deleted);
    var n := DownloadAll(env, d.paths, added);
    DeleteAllOnlyRemovesListedExisting(env, paths, deleted);
    DownloadAllOnlyDownloads(env, d.paths, added);
    DownloadAllStopsAtFirstFailure(env, d.paths, added);
    var calls := [ReadCheckpoint(user), Query(Uploads, q1)] + d.calls + [Query(Uploads, SecondQuery(q1))] + n.calls;
    assert Pass(env, user, now, paths, checkpoints).calls == calls;
  }

  /**
   * The checkpoint is written only as the pass's last call, after both
   * loops completed, with the date of `now`. A pass that reaches the save
   * returns the save's error, so the pass succeeds exactly when it makes
   * the save and the save succeeds; otherwise the checkpoints are unchanged.
   */
  lemma CheckpointOnlyAtEnd(env: Env, user: string, now: Instant, paths: set<string>, checkpoints: map<string, string>)
    ensures var o := Pass(env, user, now, paths, checkpoints);
            var stamp := env.clock.formatDate(now);
            && |o.calls| > 0
            && (forall k :: 0 <= k < |o.calls| - 1 ==> !o.calls[k].SaveCheckpoint?)
            && (o.calls[|o.calls| - 1] == SaveCheckpoint(user, stamp) ==> o.err == env.saveFault(user, stamp))
            && (o.err == None <==> o.calls[|o.calls| - 1] == SaveCheckpoint(user, stamp) && env.saveFault(user, stamp) == None)
            && (o.err == None ==> o.checkpoints == checkpoints[user := stamp])
            && (o.err != None ==> o.checkpoints == checkpoints)
  {
    var q1 := FirstQuery(env, checkpoints, user, now);
    match Listing(env, q1)
    case Err(_) =>
    case Ok(deleted) =>
      var d := DeleteAll(env, paths, deleted);
      DeleteAllOnlyRemovesListedExisting(env, paths, deleted);
      if d.err.Some? {
        DeleteAllStopsAtFirstFailure(env, paths, deleted);
        assert Pass(env, user, now, paths, checkpoints).calls == [ReadCheckpoint(user), Query(Uploads, q1)] + d.calls;
      } else {
        var q2 := SecondQuery(q1);
        var rest := Refresh(env, user, now, q2, d.paths, checkpoints);
        RefreshOrder(env, user, now, q2, d.paths, checkpoints);
        var front := [ReadCheckpoint(user), Query(Uploads, q1)] + d.calls + [Query(Uploads, q2)];
        assert Pass(env, user, now, paths, checkpoints).calls == front + rest.calls;
        assert forall k :: 0 <= k < |front| ==> !front[k].SaveCheckpoint?;
        match Listing(env, q2)
        case Err(_) =>
        case Ok(added) =>
          var n := DownloadAll(env, d.paths, added);
          if n.err.Some? {
            DownloadAllStopsAtFirstFailure(env, d.paths, added);
          }
      }
  }

  /**
   * A pass that succeeds deletes every file the server listed as deleted and
   * then downloads every file it listed as new: the local files end up as
   * (before - deleted) + new.
   */
  lemma PassSuccess(env: Env, user: string, now: Instant, paths: set<string>, checkpoints: map<string, string>,
                    deleted: seq<Row>, added: seq<Row>)
    requires Listing(env, FirstQuery(env, checkpoints, user, now)) == Ok(deleted)
    requires Listing(env, SecondQuery(FirstQuery(env, checkpoints, user, now))) == Ok(added)
    requires Pass(env, user, now, paths, checkpoints).err == None
    ensures Pass(env, user, now, paths, checkpoints).paths == (paths - PathsOf(env, deleted)) + PathsOf(env, added)
  {
    DeleteAllSuccess(env, paths, deleted);
    DownloadAllSuccess(env, DeleteAll(env, paths, deleted).paths, added);
  }

  /**
   * Idempotence: when every deleted row is already absent and every new row
   * already present, the pass deletes and downloads nothing and only saves
   * the checkpoint.
   */
  lemma PassWithNothingToDo(env: Env, user: string, now: Instant, paths: set<string>, checkpoints: map<string, string>,
                            deleted: seq<Row>, added: seq<Row>)
    requires Listing(env, FirstQuery(env, checkpoints, user, now)) == Ok(deleted)
    requires Listing(env, SecondQuery(FirstQuery(env, checkpoints, user, now))) == Ok(added)
    requires forall i :: 0 <= i < |deleted| ==> env.getPath(deleted[i].name) !in paths
    requires forall i :: 0 <= i < |added| ==> env.getPath(added[i].name) in paths
    ensures var o := Pass(env, user, now, paths, checkpoints);
            var q1 := FirstQuery(env, checkpoints, user, now);
            var stamp := env.clock.formatDate(now);
            && o.paths == paths
            && o.calls == [ReadCheckpoint(user), Query(Uploads, q1), Query(Uploads, SecondQuery(q1)), SaveCheckpoint(user, stamp)]
            && o.err == env.saveFault(user, stamp)
  {
    DeleteAllSkipsAbsent(env, paths, deleted);
    DownloadAllSkipsPresent(env, paths, added);
  }

  /**
   * The checkpoint a successful pass writes is a bare date, which
   * `time.Parse(time.RFC3339, ...)` rejects; the parse error is discarded,
   * so the next pass's window starts at the zero time.
   */
  lemma CheckpointReparsesAsZeroTime(env: Env, user: string, now: Instant, later: Instant,
                                     paths: set<string>, checkpoints: map<string, string>)
    requires Layouts(env.clock)
    requires Pass(env, user, now, paths, checkpoints).err == None
    ensures WindowStart(env, Pass(env, user, now, paths, checkpoints).checkpoints, user, later) == ZeroTime
  {
    CheckpointOnlyAtEnd(env, user, now, paths, checkpoints);
    assert |env.clock.formatDate(now)| < 19;
  }

  /**
   * Convergence: after a successful pass, a second pass that receives the
   * same two listings (whose paths do not overlap) deletes and downloads
   * nothing and leaves the local files as they are.
   */
  lemma SecondPassIsQuiet(env: Env, user: string, now: Instant, later: Instant,
                          paths: set<string>, checkpoints: map<string, string>, deleted: seq<Row>, added: seq<Row>)
    requires Listing(env, FirstQuery(env, checkpoints, user, now)) == Ok(deleted)
    requires Listing(env, SecondQuery(FirstQuery(env, checkpoints, user, now))) == Ok(added)
    requires Pass(env, user, now, paths, checkpoints).err == None
    requires PathsOf(env, deleted) !! PathsOf(env, added)
    requires var o := Pass(env, user, now, paths, checkpoints);
             && Listing(env, FirstQuery(env, o.checkpoints, user, later)) == Ok(deleted)
             && Listing(env, SecondQuery(FirstQuery(env, o.checkpoints, user, later))) == Ok(added)
    ensures var o := Pass(env, user, now, paths, checkpoints);
            var o2 := Pass(env, user, later, o.paths, o.checkpoints);
            && o2.paths == o.paths
            && (forall k :: 0 <= k < |o2.calls| ==> !o2.calls[k].Remove? && !o2.calls[k].Download?)
  {
    var o := Pass(env, user, now, paths, checkpoints);
    PassSuccess(env, user, now, paths, checkpoints, deleted, added);
    forall i | 0 <= i < |deleted|
      ensures env.getPath(deleted[i].name) !in o.paths
    {
      PathsOfHas(env, deleted, i);
    }
    forall i | 0 <= i < |added|
      ensures env.getPath(added[i].name) in o.paths
    {
      PathsOfHas(env, added, i);
    }
    PassWithNothingToDo(env, user, later, o.paths, o.checkpoints, deleted, added);
  }

  /** Every row's path is in `PathsOf`. */
  lemma {:induction false} PathsOfHas(env: Env, rows: seq<Row>, i: nat)
    requires i < |rows|
    ensures env.getPath(rows[i].name) in PathsOf(env, rows)
    decreases i
  {
    if i > 0 {
      PathsOfHas(env, rows[1..], i - 1);
      assert rows[1..][i - 1] == rows[i];
    }
  }
}

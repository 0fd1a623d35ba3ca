/** run_stage_sync as a step of the history: the parts it makes, and what its deletes and records come to. */
module SyncRuns {
  import opened Options
  import opened Ledger
  import opened KeySpaces
  import opened Sinks
  import opened Prune
  import opened StageSync
  import opened Rollback
  import opened SyncHistory

  /** One part for each environment written. */
  function PartsOf(s: Setting, files: seq<EtlFile>): (parts: seq<Part>)
    ensures |parts| == |EnvsOf(files)|
  {
    var envs := EnvsOf(files);
    seq(|envs|, i requires 0 <= i < |envs| =>
      Part(envs[i], WritingsOf(s.repo, files, envs[i]), s.liveIn(envs[i]), s.deleteIn(envs[i])))
  }

  /** The sync of *files*; of those before the failure when it is not complete. */
  function SyncOf(s: Setting, cls: string, files: seq<EtlFile>, complete: bool): Sync {
    Sync(s.w, cls, s.rule, s.cfg, s.tenant, s.datasource, s.db.Some?, complete, PartsOf(s, files))
  }

  /** No file's path reads like the inventory name of a file of the repository. */
  ghost predicate PlainPaths(repo: string, files: seq<EtlFile>) {
    forall i, j :: 0 <= i < |files| && 0 <= j < |files| ==> files[i].path != NameOf(repo, files[j].path)
  }

  lemma {:induction false} AddedLast(ws: seq<Writing>, w: Writing)
    requires forall i :: 0 <= i < |ws| ==> ws[i].name != w.name
    ensures AddWriting(ws, w) == ws + [w]
  {
    if ws != [] {
      AddedLast(ws[1..], w);
      assert ws == [ws[0]] + ws[1..];
    }
  }

  lemma SameName(repo: string, a: string, b: string)
    requires NameOf(repo, a) == NameOf(repo, b)
    ensures a == b
  {
    assert NameOf(repo, a)[|repo| + 1..] == a && NameOf(repo, b)[|repo| + 1..] == b;
  }

  predicate WritesTo(files: seq<EtlFile>, i: nat, env: string)
    requires i < |files|
  {
    !Empty(files[i]) && files[i].env == env
  }

  /** The writing of some file of *env*. */
  ghost predicate IsWriting(repo: string, files: seq<EtlFile>, env: string, w: Writing) {
    exists i :: 0 <= i < |files| && WritesTo(files, i, env) && w == WritingOf(repo, files[i])
  }

  lemma OneMoreWriting(repo: string, files: seq<EtlFile>, env: string, w: Writing)
    requires files != []
    ensures var n := |files| - 1;
            IsWriting(repo, files, env, w) <==>
            IsWriting(repo, files[..n], env, w) || (WritesTo(files, n, env) && w == WritingOf(repo, files[n]))
  {
    var n := |files| - 1;
    if IsWriting(repo, files[..n], env, w) {
      var i :| 0 <= i < n && WritesTo(files[..n], i, env) && w == WritingOf(repo, files[..n][i]);
      assert WritesTo(files, i, env);
    }
    if IsWriting(repo, files, env, w) {
      var i :| 0 <= i < |files| && WritesTo(files, i, env) && w == WritingOf(repo, files[i]);
      assert i < n ==> WritesTo(files[..n], i, env);
    }
  }

  /** Each file of the environment once: what its prune and its record are given. */
  lemma {:induction false} WritingsAreFiles(repo: string, files: seq<EtlFile>, env: string)
    requires Collected(files)
    ensures var ws := WritingsOf(repo, files, env);
            && (forall w :: w in ws <==> IsWriting(repo, files, env, w))
            && (forall i, j :: 0 <= i < j < |ws| ==> ws[i].name != ws[j].name)
  {
    if files != [] {
      var n := |files| - 1;
      var init, f := files[..n], files[n];
      WritingsAreFiles(repo, init, env);
      var before := WritingsOf(repo, init, env);
      if WritesTo(files, n, env) {
        forall i | 0 <= i < |before| ensures before[i].name != NameOf(repo, f.path) {
          assert IsWriting(repo, init, env, before[i]);
          var m :| 0 <= m < |init| && WritesTo(init, m, env) && before[i] == WritingOf(repo, init[m]);
          if before[i].name == NameOf(repo, f.path) {
            SameName(repo, files[m].path, f.path);
          }
        }
        AddedLast(before, WritingOf(repo, f));
      }
      forall w ensures w in WritingsOf(repo, files, env) <==> IsWriting(repo, files, env, w) {
        OneMoreWriting(repo, files, env, w);
      }
    }
  }

  ghost predicate OneEach(ws: seq<Writing>) {
    forall i, j :: 0 <= i < j < |ws| ==> ws[i].name != ws[j].name
  }

  /** Added again, a file has its latest keys. */
  lemma {:induction false} AddedMembers(ws: seq<Writing>, w: Writing)
    requires OneEach(ws)
    ensures forall x :: x in AddWriting(ws, w) <==> x == w || (x in ws && x.name != w.name)
  {
    if ws != [] {
      assert ws == [ws[0]] + ws[1..];
      assert forall x :: x in ws[1..] ==> x.name != ws[0].name;
      if ws[0].name != w.name {
        AddedMembers(ws[1..], w);
      }
    }
  }

  lemma {:induction false} AddedOnce(ws: seq<Writing>, w: Writing)
    requires OneEach(ws)
    ensures OneEach(AddWriting(ws, w))
  {
    if ws != [] && ws[0].name != w.name {
      var added := AddWriting(ws[1..], w);
      AddedOnce(ws[1..], w);
      AddedMembers(ws[1..], w);
      assert AddWriting(ws, w) == [ws[0]] + added;
      hide AddWriting;
      assert forall i :: 0 <= i < |added| ==> added[i] in added;
      assert forall x :: x in ws[1..] ==> x.name != ws[0].name;
    }
  }

  /** The writing of some file of *env* whose path no later file of it has. */
  ghost predicate IsLastWriting(repo: string, files: seq<EtlFile>, env: string, w: Writing) {
    exists i :: IsLastOf(files, env, i) && SaysAll(repo, files[i], w)
  }

  ghost predicate SaysAll(repo: string, f: EtlFile, w: Writing) {
    w.name == repo + ":" + f.path && w.path == f.path && w.flat == f.flat && w.secrets == f.secrets
  }

  ghost predicate IsLastOf(files: seq<EtlFile>, env: string, i: int) {
    && 0 <= i < |files| && WritesTo(files, i, env)
    && forall j :: i < j < |files| && WritesTo(files, j, env) ==> files[j].path != files[i].path
  }

  lemma OneMoreLast(repo: string, files: seq<EtlFile>, env: string, w: Writing)
    requires files != []
    ensures var n := |files| - 1;
            IsLastWriting(repo, files, env, w) <==>
            if WritesTo(files, n, env) then
              w == WritingOf(repo, files[n])
              || (IsLastWriting(repo, files[..n], env, w) && w.name != NameOf(repo, files[n].path))
            else IsLastWriting(repo, files[..n], env, w)
  {
    var n := |files| - 1;
    forall i | 0 <= i < n
      ensures IsLastOf(files, env, i)
         <==> IsLastOf(files[..n], env, i) && (WritesTo(files, n, env) ==> files[n].path != files[i].path)
    {
      assert forall j :: 0 <= j < n ==> (WritesTo(files, j, env) <==> WritesTo(files[..n], j, env));
    }
    assert IsLastOf(files, env, n) <==> WritesTo(files, n, env);
    forall i | 0 <= i < n ensures NameOf(repo, files[i].path) == NameOf(repo, files[n].path) ==>
                                  files[i].path == files[n].path
    {
      if NameOf(repo, files[i].path) == NameOf(repo, files[n].path) {
        SameName(repo, files[i].path, files[n].path);
      }
    }
    if IsLastWriting(repo, files, env, w) {
      var i :| IsLastOf(files, env, i) && SaysAll(repo, files[i], w);
      assert i < n ==> files[..n][i] == files[i] && IsLastOf(files[..n], env, i);
    }
    if IsLastWriting(repo, files[..n], env, w) {
      var i :| IsLastOf(files[..n], env, i) && SaysAll(repo, files[..n][i], w);
      assert SaysAll(repo, files[i], w);
    }
  }

  /** Whatever files a run has: its prunes and records are given each path of the environment once, as written last. */
  lemma {:induction false} LastWritingsCount(repo: string, files: seq<EtlFile>, env: string)
    ensures OneEach(WritingsOf(repo, files, env))
    ensures forall w :: w in WritingsOf(repo, files, env) <==> IsLastWriting(repo, files, env, w)
  {
    if files != [] {
      var n := |files| - 1;
      LastWritingsCount(repo, files[..n], env);
      AddedOnce(WritingsOf(repo, files[..n], env), WritingOf(repo, files[n]));
      AddedMembers(WritingsOf(repo, files[..n], env), WritingOf(repo, files[n]));
      forall w ensures w in WritingsOf(repo, files, env) <==> IsLastWriting(repo, files, env, w) {
        OneMoreLast(repo, files, env, w);
      }
    }
  }

  /** The sync of a run is one the history allows, of all its files or of those before a failure. */
  lemma RunIsAllowed(s: Setting, cls: string, files: seq<EtlFile>, complete: bool)
    requires Collected(files) && PlainPaths(s.repo, files)
    ensures SyncAllowed(SyncOf(s, cls, files, complete))
  {
    var envs, parts := EnvsOf(files), PartsOf(s, files);
    EnvsAreDistinct(files);
    forall i | 0 <= i < |envs|
      ensures parts[i].ws != [] && DistinctFiles(parts[i].ws)
    {
      PartIsAllowed(s.repo, files, envs[i]);
    }
  }

  lemma PartIsAllowed(repo: string, files: seq<EtlFile>, env: string)
    requires Collected(files) && PlainPaths(repo, files) && env in EnvsOf(files)
    ensures var ws := WritingsOf(repo, files, env); ws != [] && DistinctFiles(ws)
  {
    EnvsAreDistinct(files);
    WritingsAreFiles(repo, files, env);
    var ws := WritingsOf(repo, files, env);
    var m :| 0 <= m < |files| && files[m].env == env && !Empty(files[m]);
    assert WritesTo(files, m, env);
    assert IsWriting(repo, files, env, WritingOf(repo, files[m]));
    forall i, j | 0 <= i < |ws| && 0 <= j < |ws|
      ensures ws[i].path != ws[j].name
    {
      assert IsWriting(repo, files, env, ws[i]) && IsWriting(repo, files, env, ws[j]);
    }
  }

  function AllKeys(calls: seq<DeleteCall>): set<Key> {
    if calls == [] then {} else KeySet(calls[0].keys) + AllKeys(calls[1..])
  }

  /**
   A run that pruned is a step of the history: what it asks delete_keys for in each environment is what the
   history takes there, nothing is asked for elsewhere, and the pending keys its results carry to the ledger
   are those the history records.
   */
  lemma RunIsHistory(s: Setting, cls: string, files: seq<EtlFile>, db: Db,
                     outcomes: map<string, Option<PruneOutcome>>, calls: seq<DeleteCall>, env: string)
    requires AllPruned(s, cls, files, EnvsOf(files), outcomes, calls) && (s.db.Some? ==> s.db.value == db)
    ensures var y := SyncOf(s, cls, files, true);
            if env !in EnvsOf(files) then AllKeys(CallsIn(calls, env)) == {}
            else
              exists i :: 0 <= i < |y.parts| && y.parts[i].env == env
                && AllKeys(CallsIn(calls, env)) == MineOf(db, y, y.parts[i])
                && env in outcomes
                && PendingAfter(db, y, y.parts[i])
                == (if outcomes[env].Some? then Some(KeySet(outcomes[env].value.pending)) else None)
  {
    var y := SyncOf(s, cls, files, true);
    if env in EnvsOf(files) {
      var i :| 0 <= i < |EnvsOf(files)| && EnvsOf(files)[i] == env;
      assert LedgerFor(y, db) == s.db;
      assert EnvOutcome(s, cls, files, env, outcomes[env], CallsIn(calls, env));
      PendingAfterIsOutcome(db, y, y.parts[i], outcomes[env], CallsIn(calls, env));
      AskedIsMine(s, cls, files, env, outcomes[env], CallsIn(calls, env));
      assert y.parts[i].env == env;
    }
  }

  lemma AskedIsMine(s: Setting, cls: string, files: seq<EtlFile>, env: string, outcome: Option<PruneOutcome>,
                    calls: seq<DeleteCall>)
    requires EnvOutcome(s, cls, files, env, outcome, calls)
    ensures AllKeys(calls) == MineIn(s, cls, files, env)
  {
    hide Accounted, HeldBack, InState, Candidates, Sharers, Holders, CanLookUp;
    assert calls != [] ==> calls[1..] == [] || |calls| > 1;
  }

  /** And what it writes is what the history writes: the keys of the environment's files. */
  lemma WrittenAreTheFiles(s: Setting, files: seq<EtlFile>, env: string, k: Key)
    requires Collected(files)
    ensures k in WrittenKeys(WritingsOf(s.repo, files, env)) <==>
            exists i :: 0 <= i < |files| && WritesTo(files, i, env) && k in files[i].flat
  {
    WritingsAreFiles(s.repo, files, env);
    var ws := WritingsOf(s.repo, files, env);
    if k in WrittenKeys(ws) {
      var j :| 0 <= j < |ws| && k in ws[j].flat;
      assert IsWriting(s.repo, files, env, ws[j]);
      var i :| 0 <= i < |files| && WritesTo(files, i, env) && ws[j] == WritingOf(s.repo, files[i]);
    }
    if i :| 0 <= i < |files| && WritesTo(files, i, env) && k in files[i].flat {
      assert IsWriting(s.repo, files, env, WritingOf(s.repo, files[i]));
      var j :| 0 <= j < |ws| && ws[j] == WritingOf(s.repo, files[i]);
    }
  }

  /**
   A run that failed at file k: the recorder keeps the files whose result is ok (when the sink does not undo
   them), and these are the files before the failure, the parts of the history's failed sync.
   */
  lemma OkResultsAreTheParts(repo: string, files: seq<EtlFile>, answers: seq<WriteAnswer>, k: nat,
                             results: seq<SyncResult>, env: string, w: Writing)
    requires k < |files| == |answers| && Fails(files, answers, k) && |results| == |files|
    requires ResultsFor(results, files, answers, Some(k))
    ensures IsWriting(repo, files[..k], env, w) <==>
            exists i :: 0 <= i < |files| && results[i].status == StatusOk && results[i].env == env
                && w == WritingOf(repo, files[i])
  {
    if IsWriting(repo, files[..k], env, w) {
      var i :| 0 <= i < k && WritesTo(files[..k], i, env) && w == WritingOf(repo, files[..k][i]);
      assert results[i].status == StatusOk;
    }
    if i :| 0 <= i < |files| && results[i].status == StatusOk && results[i].env == env
            && w == WritingOf(repo, files[i]) {
      assert i < k && WritesTo(files[..k], i, env);
    }
  }

  /** A run that failed, or could not read the ledger, takes no key anywhere and leaves what was pending so. */
  lemma FailedRunTakesNothing(s: Setting, cls: string, files: seq<EtlFile>, complete: bool, db: Db)
    requires !complete || s.db.None?
    ensures var y := SyncOf(s, cls, files, complete);
            && Taken(db, y) == {}
            && forall i :: 0 <= i < |y.parts| ==>
                 MineOf(db, y, y.parts[i]) == {} && PendingAfter(db, y, y.parts[i]) == None
  {
    var y := SyncOf(s, cls, files, complete);
    forall i | 0 <= i < |y.parts| ensures MineOf(db, y, y.parts[i]) == {} {
      assert LedgerFor(y, db) == None;
    }
  }
}

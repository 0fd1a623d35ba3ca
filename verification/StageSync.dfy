/** Writing a sync's files, undoing them when one fails, pruning when none does (stage_sync.run_stage_sync). */
module StageSync {
  import opened Options
  import opened Settings
  import opened Ledger
  import opened KeySpaces
  import opened PruneConfigs
  import opened Sinks
  import opened Prune
  import TargetLocks

  /** One transformed file. */
  datatype EtlFile = EtlFile(path: string, env: string, flat: map<Key, string>, secrets: set<Key>)

  datatype Status = StatusOk | StatusEmpty | StatusError | StatusAborted | StatusSkipped

  datatype SyncResult = SyncResult(path: string, env: string, status: Status, error: string,
                                   prune: Option<PruneOutcome>)

  function IdOf(f: EtlFile): FileId {
    FileId(f.env, f.path)
  }

  predicate Empty(f: EtlFile) {
    f.flat == map[]
  }

  /** Writing file i raises. */
  predicate Fails(files: seq<EtlFile>, answers: seq<WriteAnswer>, i: nat)
    requires i < |files| == |answers|
  {
    !Empty(files[i]) && answers[i].WriteRaises?
  }

  // -- The store while files are written and undone -----------------------------

  /** The store after the first *n* files, none of which failed. */
  function StoreAfter(layout: Layout, store: Store, files: seq<EtlFile>, answers: seq<WriteAnswer>, n: nat): Store
    requires n <= |files| == |answers|
  {
    if n == 0 then store
    else
      var before := StoreAfter(layout, store, files, answers, n - 1);
      if Empty(files[n - 1]) || answers[n - 1].WriteRaises? then before
      else Put(layout, before, IdOf(files[n - 1]), answers[n - 1].doc)
  }

  /** A written file with what it held before the write. */
  datatype UndoEntry = UndoEntry(file: FileId, snapshot: Doc)

  function UndoList(layout: Layout, store: Store, files: seq<EtlFile>, answers: seq<WriteAnswer>, n: nat):
    seq<UndoEntry>
    requires n <= |files| == |answers|
  {
    if n == 0 then []
    else
      var undo, f := UndoList(layout, store, files, answers, n - 1), files[n - 1];
      if Empty(f) then undo
      else undo + [UndoEntry(IdOf(f), DocOf(StoreAfter(layout, store, files, answers, n - 1), IdOf(f)))]
  }

  /** The rollback, first write first; a restore that raises is logged. */
  function RolledBack(store: Store, undo: seq<UndoEntry>, undoing: Undoing, stuck: map<FileId, Doc>): Store {
    if undo == [] then store
    else
      var last := undo[|undo| - 1];
      Undone(RolledBack(store, undo[..|undo| - 1], undoing, stuck), undoing, last.file, last.snapshot, stuck)
  }

  /** The store when file *k* has failed, before the rollback. */
  function StoreAtFailure(layout: Layout, store: Store, files: seq<EtlFile>, answers: seq<WriteAnswer>, k: nat): Store
    requires k < |files| == |answers| && Fails(files, answers, k)
  {
    Put(layout, StoreAfter(layout, store, files, answers, k), IdOf(files[k]), answers[k].left)
  }

  /** The store a run leaves that fails at file *k*. */
  function StoreAfterFailure(layout: Layout, store: Store, files: seq<EtlFile>, answers: seq<WriteAnswer>, k: nat,
                             undoing: Undoing, stuck: map<FileId, Doc>): Store
    requires k < |files| == |answers| && Fails(files, answers, k)
  {
    RolledBack(StoreAtFailure(layout, store, files, answers, k), UndoList(layout, store, files, answers, k), undoing,
               stuck)
  }

  // -- The files of one environment ---------------------------------------------

  /** `written[name] = (path, flat)`: a name written again keeps its place. */
  function AddWriting(ws: seq<Writing>, w: Writing): seq<Writing> {
    if ws == [] then [w]
    else if ws[0].name == w.name then [w] + ws[1..]
    else [ws[0]] + AddWriting(ws[1..], w)
  }

  function WritingOf(repo: string, f: EtlFile): Writing {
    Writing(NameOf(repo, f.path), f.path, f.flat, f.secrets)
  }

  /** The files of *env* among those given: what its prune takes as just written. */
  function WritingsOf(repo: string, files: seq<EtlFile>, env: string): seq<Writing> {
    if files == [] then []
    else
      var before, f := WritingsOf(repo, files[..|files| - 1], env), files[|files| - 1];
      if Empty(f) || f.env != env then before else AddWriting(before, WritingOf(repo, f))
  }

  /** The environments written, in the order their first files came. */
  function EnvsOf(files: seq<EtlFile>): seq<string> {
    if files == [] then []
    else
      var before, f := EnvsOf(files[..|files| - 1]), files[|files| - 1];
      if Empty(f) || f.env in before then before else before + [f.env]
  }

  // -- The write loop -----------------------------------------------------------

  function Attempted(f: EtlFile, status: Status, error: string): SyncResult {
    SyncResult(f.path, f.env, status, error, None)
  }

  const ABORTED := "aborted due to earlier write failure + rollback"

  /** One result per file: written or empty up to the failure, then the failure, then aborted. */
  function ResultAt(files: seq<EtlFile>, answers: seq<WriteAnswer>, failed: Option<nat>, i: nat): SyncResult
    requires i < |files| == |answers|
    requires failed.Some? ==> failed.value < |files| && answers[failed.value].WriteRaises?
  {
    if failed.Some? && i > failed.value then Attempted(files[i], StatusAborted, ABORTED)
    else if failed == Some(i) then Attempted(files[i], StatusError, answers[i].message)
    else Attempted(files[i], if Empty(files[i]) then StatusEmpty else StatusOk, "")
  }

  /** The results so far are those of the first files. */
  ghost predicate ResultsFor(results: seq<SyncResult>, files: seq<EtlFile>, answers: seq<WriteAnswer>,
                             failed: Option<nat>)
    requires |files| == |answers|
    requires failed.Some? ==> failed.value < |files| && answers[failed.value].WriteRaises?
  {
    |results| <= |files| && forall i :: 0 <= i < |results| ==> results[i] == ResultAt(files, answers, failed, i)
  }

  /** None of the first n files failed. */
  ghost predicate NoneFailed(files: seq<EtlFile>, answers: seq<WriteAnswer>, n: nat)
    requires n <= |files| == |answers|
  {
    forall i :: 0 <= i < n ==> !Fails(files, answers, i)
  }

  function SkippedResults(skipped: seq<string>): (r: seq<SyncResult>)
    ensures |r| == |skipped|
    ensures forall i :: 0 <= i < |skipped| ==> r[i] == SyncResult(skipped[i], "unknown", StatusSkipped, "", None)
  {
    seq(|skipped|, i requires 0 <= i < |skipped| => SyncResult(skipped[i], "unknown", StatusSkipped, "", None))
  }

  /** The rollback loop. */
  method RollBack(sink: Sink, undo: seq<UndoEntry>, stuck: map<FileId, Doc>)
    modifies sink`store
    ensures sink.store == RolledBack(old(sink.store), undo, sink.undoing, stuck)
  {
    for i := 0 to |undo|
      invariant sink.store == RolledBack(old(sink.store), undo[..i], sink.undoing, stuck)
    {
      assert undo[..i + 1][..i] == undo[..i];
      sink.Undo(undo[i].file, undo[i].snapshot, stuck);
    }
    assert undo[..|undo|] == undo;
  }

  /** *byEnv* holds the files written so far, environment by environment. */
  ghost predicate Tracks(repo: string, files: seq<EtlFile>, envs: seq<string>, byEnv: map<string, seq<Writing>>) {
    && envs == EnvsOf(files)
    && (forall env :: env in byEnv <==> env in envs)
    && (forall env :: WritingsOf(repo, files, env) == if env in byEnv then byEnv[env] else [])
  }

  /** `written_by_env.setdefault(env, {})[name] = (path, flat)`. */
  method NoteWritten(repo: string, ghost files: seq<EtlFile>, f: EtlFile, envs: seq<string>,
                     byEnv: map<string, seq<Writing>>)
    returns (envs': seq<string>, byEnv': map<string, seq<Writing>>)
    requires !Empty(f) && Tracks(repo, files, envs, byEnv)
    ensures Tracks(repo, files + [f], envs', byEnv')
  {
    envs', byEnv' := envs, byEnv;
    if f.env !in byEnv {
      envs' := envs + [f.env];
      byEnv' := byEnv[f.env := []];
    }
    byEnv' := byEnv'[f.env := AddWriting(byEnv'[f.env], WritingOf(repo, f))];
    assert (files + [f])[..|files|] == files;
  }

  lemma TracksNothing(repo: string)
    ensures Tracks(repo, [], [], map[])
  {
  }

  lemma TracksEmpty(repo: string, files: seq<EtlFile>, f: EtlFile, envs: seq<string>, byEnv: map<string, seq<Writing>>)
    requires Empty(f) && Tracks(repo, files, envs, byEnv)
    ensures Tracks(repo, files + [f], envs, byEnv)
  {
    assert (files + [f])[..|files|] == files;
  }

  /** A failed write: everything written before is undone, and the files after it are not attempted. */
  method GiveUp(sink: Sink, files: seq<EtlFile>, answers: seq<WriteAnswer>, idx: nat, undo: seq<UndoEntry>,
                stuck: map<FileId, Doc>, before: seq<SyncResult>) returns (results: seq<SyncResult>)
    requires idx < |files| == |answers| && Fails(files, answers, idx)
    requires |before| == idx && ResultsFor(before, files, answers, None)
    modifies sink`store
    ensures |results| == |files| && ResultsFor(results, files, answers, Some(idx))
    ensures sink.store == RolledBack(old(sink.store), undo, sink.undoing, stuck)
  {
    results := before + [Attempted(files[idx], StatusError, answers[idx].message)];
    RollBack(sink, undo, stuck);
    for j := idx + 1 to |files|
      invariant |results| == j && ResultsFor(results, files, answers, Some(idx))
    {
      results := results + [Attempted(files[j], StatusAborted, ABORTED)];
    }
  }

  lemma OneMoreResult(results: seq<SyncResult>, files: seq<EtlFile>, answers: seq<WriteAnswer>, r: SyncResult)
    requires |files| == |answers| && |results| < |files|
    requires ResultsFor(results, files, answers, None) && NoneFailed(files, answers, |results|)
    requires !Fails(files, answers, |results|)
    requires r == Attempted(files[|results|], if Empty(files[|results|]) then StatusEmpty else StatusOk, "")
    ensures ResultsFor(results + [r], files, answers, None) && NoneFailed(files, answers, |results| + 1)
  {
  }

  lemma OneMoreFile(layout: Layout, store: Store, files: seq<EtlFile>, answers: seq<WriteAnswer>, n: nat)
    requires n < |files| == |answers| && !Fails(files, answers, n)
    ensures var f, before := files[n], StoreAfter(layout, store, files, answers, n);
            var undo := UndoList(layout, store, files, answers, n);
            if Empty(f) then
              StoreAfter(layout, store, files, answers, n + 1) == before
              && UndoList(layout, store, files, answers, n + 1) == undo
            else
              StoreAfter(layout, store, files, answers, n + 1) == Put(layout, before, IdOf(f), answers[n].doc)
              && UndoList(layout, store, files, answers, n + 1)
              == undo + [UndoEntry(IdOf(f), DocOf(before, IdOf(f)))]
  {
  }

  /** The write loop after n files, none of which failed. */
  ghost predicate WroteFirst(layout: Layout, first: Store, files: seq<EtlFile>, answers: seq<WriteAnswer>, n: nat,
                             store: Store, undo: seq<UndoEntry>, results: seq<SyncResult>)
    requires |files| == |answers|
  {
    && n <= |files| && |results| == n
    && ResultsFor(results, files, answers, None) && NoneFailed(files, answers, n)
    && store == StoreAfter(layout, first, files, answers, n)
    && undo == UndoList(layout, first, files, answers, n)
  }

  lemma WroteNothing(layout: Layout, first: Store, files: seq<EtlFile>, answers: seq<WriteAnswer>)
    requires |files| == |answers|
    ensures WroteFirst(layout, first, files, answers, 0, first, [], [])
  {
  }

  lemma SkippedEmpty(layout: Layout, first: Store, files: seq<EtlFile>, answers: seq<WriteAnswer>, n: nat,
                     store: Store, undo: seq<UndoEntry>, results: seq<SyncResult>)
    requires |files| == |answers| && WroteFirst(layout, first, files, answers, n, store, undo, results)
    requires n < |files| && Empty(files[n])
    ensures WroteFirst(layout, first, files, answers, n + 1, store, undo,
                       results + [Attempted(files[n], StatusEmpty, "")])
  {
    hide StoreAfter, UndoList, ResultsFor, NoneFailed, Attempted;
    OneMoreFile(layout, first, files, answers, n);
    OneMoreResult(results, files, answers, Attempted(files[n], StatusEmpty, ""));
  }

  lemma WroteOneMore(layout: Layout, first: Store, files: seq<EtlFile>, answers: seq<WriteAnswer>, n: nat,
                     store: Store, undo: seq<UndoEntry>, results: seq<SyncResult>)
    requires |files| == |answers| && WroteFirst(layout, first, files, answers, n, store, undo, results)
    requires n < |files| && !Empty(files[n]) && answers[n].Written?
    ensures var f := IdOf(files[n]);
            WroteFirst(layout, first, files, answers, n + 1, Put(layout, store, f, answers[n].doc),
                       undo + [UndoEntry(f, DocOf(store, f))], results + [Attempted(files[n], StatusOk, "")])
  {
    hide StoreAfter, UndoList, ResultsFor, NoneFailed, Attempted, Put, DocOf;
    OneMoreFile(layout, first, files, answers, n);
    OneMoreResult(results, files, answers, Attempted(files[n], StatusOk, ""));
  }

  lemma FailedAt(layout: Layout, first: Store, files: seq<EtlFile>, answers: seq<WriteAnswer>, n: nat, store: Store,
                 undo: seq<UndoEntry>, results: seq<SyncResult>, undoing: Undoing, stuck: map<FileId, Doc>)
    requires |files| == |answers| && WroteFirst(layout, first, files, answers, n, store, undo, results)
    requires n < |files|
    ensures NoneFailed(files, answers, n) && |results| == n && ResultsFor(results, files, answers, None)
    ensures Fails(files, answers, n) ==>
              RolledBack(Put(layout, store, IdOf(files[n]), answers[n].left), undo, undoing, stuck)
              == StoreAfterFailure(layout, first, files, answers, n, undoing, stuck)
  {
  }

  /** One file of the loop: skipped when empty, else snapshot and written. */
  method WriteOne(sink: Sink, repo: string, files: seq<EtlFile>, answers: seq<WriteAnswer>, idx: nat,
                  undo: seq<UndoEntry>, results: seq<SyncResult>, envs: seq<string>, byEnv: map<string, seq<Writing>>,
                  ghost first: Store)
    returns (ok: bool, undo': seq<UndoEntry>, results': seq<SyncResult>, envs': seq<string>,
             byEnv': map<string, seq<Writing>>)
    requires idx < |files| == |answers|
    requires WroteFirst(sink.layout, first, files, answers, idx, sink.store, undo, results)
    requires Tracks(repo, files[..idx], envs, byEnv)
    modifies sink`store
    ensures ok <==> !Fails(files, answers, idx)
    ensures ok ==> WroteFirst(sink.layout, first, files, answers, idx + 1, sink.store, undo', results')
    ensures ok ==> Tracks(repo, files[..idx + 1], envs', byEnv')
    ensures !ok ==> sink.store == Put(sink.layout, old(sink.store), IdOf(files[idx]), answers[idx].left)
  {
    hide WroteFirst, Tracks, Put, DocOf, Attempted;
    ok, undo', results', envs', byEnv' := true, undo, results, envs, byEnv;
    var f := files[idx];
    assert files[..idx + 1] == files[..idx] + [f];
    if Empty(f) {
      SkippedEmpty(sink.layout, first, files, answers, idx, sink.store, undo, results);
      results' := results + [Attempted(f, StatusEmpty, "")];
      TracksEmpty(repo, files[..idx], f, envs, byEnv);
      return;
    }
    ghost var before := sink.store;
    var snapshot := sink.Snapshot(IdOf(f));
    ok := sink.Write(IdOf(f), answers[idx]);
    if ok {
      WroteOneMore(sink.layout, first, files, answers, idx, before, undo, results);
      undo' := undo + [UndoEntry(IdOf(f), snapshot)];
      envs', byEnv' := NoteWritten(repo, files[..idx], f, envs, byEnv);
      results' := results + [Attempted(f, StatusOk, "")];
    }
  }

  /** The write loop, up to and with the rollback after a failed write. */
  method WriteFiles(sink: Sink, repo: string, files: seq<EtlFile>, answers: seq<WriteAnswer>, stuck: map<FileId, Doc>)
    returns (results: seq<SyncResult>, failed: Option<nat>, envs: seq<string>, byEnv: map<string, seq<Writing>>)
    requires |files| == |answers|
    modifies sink`store
    ensures failed.Some? ==>
              failed.value < |files| && Fails(files, answers, failed.value) && NoneFailed(files, answers, failed.value)
    ensures failed.None? ==> NoneFailed(files, answers, |files|)
    ensures |results| == |files| && ResultsFor(results, files, answers, failed)
    ensures failed.Some? ==>
              sink.store == StoreAfterFailure(sink.layout, old(sink.store), files, answers, failed.value, sink.undoing,
                                              stuck)
    ensures failed.None? ==> sink.store == StoreAfter(sink.layout, old(sink.store), files, answers, |files|)
    ensures failed.None? ==> Tracks(repo, files, envs, byEnv)
  {
    results, failed, envs, byEnv := [], None, [], map[];
    var undo: seq<UndoEntry> := [];
    ghost var first := sink.store;
    WroteNothing(sink.layout, first, files, answers);
    TracksNothing(repo);
    assert files[..0] == [];
    for idx := 0 to |files|
      invariant WroteFirst(sink.layout, first, files, answers, idx, sink.store, undo, results)
      invariant Tracks(repo, files[..idx], envs, byEnv)
    {
      hide *;
      ghost var before := sink.store;
      FailedAt(sink.layout, first, files, answers, idx, before, undo, results, sink.undoing, stuck);
      var ok, undo', results', envs', byEnv' := WriteOne(sink, repo, files, answers, idx, undo, results, envs, byEnv,
                                                         first);
      if !ok {
        failed := Some(idx);
        results := GiveUp(sink, files, answers, idx, undo, stuck, results);
        return;
      }
      undo, results, envs, byEnv := undo', results', envs', byEnv';
    }
    assert files[..|files|] == files;
    WroteAll(sink.layout, first, files, answers, sink.store, undo, results);
  }

  lemma WroteAll(layout: Layout, first: Store, files: seq<EtlFile>, answers: seq<WriteAnswer>, store: Store,
                 undo: seq<UndoEntry>, results: seq<SyncResult>)
    requires |files| == |answers| && WroteFirst(layout, first, files, answers, |files|, store, undo, results)
    ensures |results| == |files| && ResultsFor(results, files, answers, None) && NoneFailed(files, answers, |files|)
    ensures store == StoreAfter(layout, first, files, answers, |files|)
  {
  }

  // -- Pruning once every file is written ---------------------------------------

  /** A sync's setting, with the answers the sink will give for each environment. */
  datatype Setting = Setting(
    w: World, rule: Rule, cfg: PruneConfig, db: Option<Db>, tenant: string, datasource: string, repo: string,
    liveIn: string -> Option<map<Key, Live>>, deleteIn: string -> DeleteAnswer)

  function MeIn(s: Setting, env: string): Target {
    Target(s.tenant, s.datasource, env)
  }

  /** The keys delete_keys is asked for in *env*. */
  function MineIn(s: Setting, cls: string, files: seq<EtlFile>, env: string): set<Key> {
    Mine(s.w, cls, s.rule, s.cfg, s.db, MeIn(s, env), WritingsOf(s.repo, files, env), s.liveIn(env))
  }

  ghost predicate EnvOutcome(s: Setting, cls: string, files: seq<EtlFile>, env: string, outcome: Option<PruneOutcome>,
                             calls: seq<DeleteCall>)
  {
    OutcomeOf(s.w, cls, s.rule, s.cfg, s.db, MeIn(s, env), WritingsOf(s.repo, files, env), s.liveIn(env),
              s.deleteIn(env),
              outcome, calls)
  }

  /** The calls of delete_keys for one environment. */
  function CallsIn(calls: seq<DeleteCall>, env: string): seq<DeleteCall> {
    if calls == [] then []
    else if calls[0].env == env then [calls[0]] + CallsIn(calls[1..], env)
    else CallsIn(calls[1..], env)
  }

  lemma {:induction false} CallsInConcat(a: seq<DeleteCall>, b: seq<DeleteCall>, env: string)
    ensures CallsIn(a + b, env) == CallsIn(a, env) + CallsIn(b, env)
  {
    if a == [] {
      assert a + b == b;
    } else {
      assert (a + b)[1..] == a[1..] + b;
      CallsInConcat(a[1..], b, env);
    }
  }

  /** The store after the prunes of *envs*. */
  function AfterPrunes(s: Setting, layout: Layout, cls: string, files: seq<EtlFile>, store: Store, envs: seq<string>):
    Store
  {
    if envs == [] then store
    else
      var env := envs[|envs| - 1];
      RemoveKeys(layout, AfterPrunes(s, layout, cls, files, store, envs[..|envs| - 1]), env,
                 Removed(MineIn(s, cls, files, env), s.deleteIn(env)))
  }

  /** The last file of *env* that was written. */
  function LastOk(results: seq<SyncResult>, env: string): Option<nat> {
    if results == [] then None
    else if results[|results| - 1].env == env && results[|results| - 1].status == StatusOk then Some(|results| - 1)
    else LastOk(results[..|results| - 1], env)
  }

  lemma {:induction false} LastOkBounds(results: seq<SyncResult>, env: string)
    ensures LastOk(results, env).Some? ==>
              LastOk(results, env).value < |results| && results[LastOk(results, env).value].env == env
  {
    if results != [] {
      LastOkBounds(results[..|results| - 1], env);
    }
  }

  /** The files' results with each environment's prune outcome on its last written file. */
  ghost predicate Attached(before: seq<SyncResult>, after: seq<SyncResult>,
                           outcomes: map<string, Option<PruneOutcome>>)
  {
    && |after| == |before|
    && forall i :: 0 <= i < |before| ==>
         var r := before[i];
         after[i] == if r.env in outcomes && outcomes[r.env].Some? && LastOk(before, r.env) == Some(i)
                     then r.(prune := outcomes[r.env]) else r
  }

  ghost predicate DistinctEnvs(envs: seq<string>) {
    forall i, j :: 0 <= i < j < |envs| ==> envs[i] != envs[j]
  }

  lemma {:induction false} EnvsAreDistinct(files: seq<EtlFile>)
    ensures DistinctEnvs(EnvsOf(files))
    ensures forall env :: env in EnvsOf(files) <==> Fills(files, env)
  {
    if files != [] {
      var init, f := files[..|files| - 1], files[|files| - 1];
      EnvsAreDistinct(init);
      assert files == init + [f];
      forall env ensures Fills(files, env) <==> Fills(init, env) || (f.env == env && !Empty(f)) {
        FillsOneMore(init, f, env);
      }
      hide Fills, Empty;
    }
  }

  /** Some file has keys for the environment. */
  ghost predicate Fills(files: seq<EtlFile>, env: string) {
    exists i :: 0 <= i < |files| && files[i].env == env && !Empty(files[i])
  }

  lemma FillsOneMore(files: seq<EtlFile>, f: EtlFile, env: string)
    ensures Fills(files + [f], env) <==> Fills(files, env) || (f.env == env && !Empty(f))
  {
    var both := files + [f];
    if Fills(files, env) {
      var i :| 0 <= i < |files| && files[i].env == env && !Empty(files[i]);
      assert both[i] == files[i];
    }
    assert both[|files|] == f;
  }

  lemma CallsOfOneEnv(calls: seq<DeleteCall>, env: string, other: string)
    requires forall i :: 0 <= i < |calls| ==> calls[i].env == env
    ensures CallsIn(calls, other) == if other == env then calls else []
  {
  }

  /** Every environment's prune did and reported what it should, and there were no other deletes. */
  ghost predicate AllPruned(s: Setting, cls: string, files: seq<EtlFile>, envs: seq<string>,
                            outcomes: map<string, Option<PruneOutcome>>, calls: seq<DeleteCall>)
  {
    && (forall env :: env in outcomes <==> env in envs)
    && (forall env :: env in outcomes ==> EnvOutcome(s, cls, files, env, outcomes[env], CallsIn(calls, env)))
    && (forall env :: env !in outcomes ==> CallsIn(calls, env) == [])
  }

  lemma OneMorePruned(s: Setting, cls: string, files: seq<EtlFile>, envs: seq<string>, env: string,
                      outcomes: map<string, Option<PruneOutcome>>, calls: seq<DeleteCall>,
                      outcome: Option<PruneOutcome>, more: seq<DeleteCall>)
    requires AllPruned(s, cls, files, envs, outcomes, calls) && env !in envs
    requires EnvOutcome(s, cls, files, env, outcome, more) && forall i :: 0 <= i < |more| ==> more[i].env == env
    ensures AllPruned(s, cls, files, envs + [env], outcomes[env := outcome], calls + more)
  {
    hide EnvOutcome;
    forall e: string
      ensures CallsIn(calls + more, e) == if e == env then more else CallsIn(calls, e)
    {
      CallsInConcat(calls, more, e);
      CallsOfOneEnv(more, env, e);
      assert CallsIn(calls, e) + [] == CallsIn(calls, e);
    }
  }

  /** A prune deletes in its own environment only. */
  lemma OutcomeStaysInEnv(s: Setting, cls: string, files: seq<EtlFile>, env: string, outcome: Option<PruneOutcome>,
                          calls: seq<DeleteCall>)
    requires EnvOutcome(s, cls, files, env, outcome, calls)
    ensures |calls| <= 1 && forall i :: 0 <= i < |calls| ==> calls[i].env == env
  {
    hide Accounted, HeldBack, InState, Candidates, Sharers, Holders, CanLookUp;
  }

  /** The prune of one environment. */
  method PruneOne(s: Setting, sink: Sink, ghost files: seq<EtlFile>, env: string, ws: seq<Writing>)
    returns (outcome: Option<PruneOutcome>)
    requires ws == WritingsOf(s.repo, files, env)
    modifies sink
    ensures old(sink.deletes) <= sink.deletes
    ensures EnvOutcome(s, sink.cls, files, env, outcome, sink.deletes[|old(sink.deletes)|..])
    ensures sink.store == RemoveKeys(sink.layout, old(sink.store), env,
                                     Removed(MineIn(s, sink.cls, files, env), s.deleteIn(env)))
  {
    outcome := PruneEnvironment(s.w, sink, s.rule, s.cfg, s.db, MeIn(s, env), ws, s.liveIn(env), s.deleteIn(env));
  }

  /** The environment's last written file takes its prune outcome. */
  method Attach(ghost before: seq<SyncResult>, results: seq<SyncResult>, last: Option<nat>, env: string,
                outcome: Option<PruneOutcome>, ghost outcomes: map<string, Option<PruneOutcome>>)
    returns (results': seq<SyncResult>)
    requires Attached(before, results, outcomes) && env !in outcomes && last == LastOk(before, env)
    ensures Attached(before, results', outcomes[env := outcome])
  {
    results' := results;
    LastOkBounds(before, env);
    if outcome.Some? && last.Some? {
      results' := results[last.value := results[last.value].(prune := outcome)];
    }
  }

  lemma Appended<T>(a: seq<T>, b: seq<T>, c: seq<T>)
    requires a <= b <= c
    ensures a <= c && b[|a|..] + c[|b|..] == c[|a|..]
  {
  }

  lemma OneMoreEnv(envs: seq<string>, i: nat)
    requires DistinctEnvs(envs) && i < |envs|
    ensures envs[..i + 1] == envs[..i] + [envs[i]] && envs[..i + 1][..i] == envs[..i] && envs[i] !in envs[..i]
  {
  }

  /** The prune loop: once per environment, in order. */
  method PruneAll(s: Setting, sink: Sink, ghost files: seq<EtlFile>, envs: seq<string>,
                  byEnv: map<string, seq<Writing>>, results: seq<SyncResult>)
    returns (results': seq<SyncResult>, ghost outcomes: map<string, Option<PruneOutcome>>)
    requires Tracks(s.repo, files, envs, byEnv)
    modifies sink
    ensures old(sink.deletes) <= sink.deletes
    ensures AllPruned(s, sink.cls, files, envs, outcomes, sink.deletes[|old(sink.deletes)|..])
    ensures sink.store == AfterPrunes(s, sink.layout, sink.cls, files, old(sink.store), envs)
    ensures Attached(results, results', outcomes)
  {
    hide EnvOutcome, MineIn;
    results', outcomes := results, map[];
    EnvsAreDistinct(files);
    for i := 0 to |envs|
      invariant old(sink.deletes) <= sink.deletes
      invariant AllPruned(s, sink.cls, files, envs[..i], outcomes, sink.deletes[|old(sink.deletes)|..])
      invariant sink.store == AfterPrunes(s, sink.layout, sink.cls, files, old(sink.store), envs[..i])
      invariant Attached(results, results', outcomes)
    {
      var env := envs[i];
      OneMoreEnv(envs, i);
      ghost var before := sink.deletes;
      var outcome := PruneOne(s, sink, files, env, byEnv[env]);
      OutcomeStaysInEnv(s, sink.cls, files, env, outcome, sink.deletes[|before|..]);
      Appended(old(sink.deletes), before, sink.deletes);
      OneMorePruned(s, sink.cls, files, envs[..i], env, outcomes, before[|old(sink.deletes)|..], outcome,
                    sink.deletes[|before|..]);
      results' := Attach(results, results', LastOk(results, env), env, outcome, outcomes);
      outcomes := outcomes[env := outcome];
    }
    assert envs[..|envs|] == envs;
  }

  // -- The whole stage ----------------------------------------------------------

  /** The environments the sync locks: those with something to write. */
  function LockedEnvs(files: seq<EtlFile>): seq<string> {
    if files == [] then []
    else (if Empty(files[0]) then [] else [files[0].env]) + LockedEnvs(files[1..])
  }

  /** They are the environments some file has keys for, so those written and pruned, and no others. */
  lemma {:induction false} LockedAreFilled(files: seq<EtlFile>)
    ensures forall env :: env in LockedEnvs(files) <==> Fills(files, env)
  {
    if files != [] {
      LockedAreFilled(files[1..]);
      assert files == [files[0]] + files[1..];
      forall env ensures env in LockedEnvs(files) <==> Fills(files, env) {
        if Fills(files[1..], env) {
          var i :| 0 <= i < |files[1..]| && files[1..][i].env == env && !Empty(files[1..][i]);
          assert files[i + 1] == files[1..][i];
        }
        if Fills(files, env) {
          var i :| 0 <= i < |files| && files[i].env == env && !Empty(files[i]);
          assert i > 0 ==> files[1..][i - 1] == files[i];
        }
      }
    }
  }

  /** The lock of an environment some file has keys for. */
  ghost predicate LocksFor(s: Setting, files: seq<EtlFile>, n: string) {
    exists i :: 0 <= i < |files| && !Empty(files[i]) && n == TargetLocks.LockName(s.tenant, s.datasource, files[i].env)
  }

  lemma LocksAreFor(s: Setting, files: seq<EtlFile>, n: string)
    ensures n in TargetLocks.LockNames(s.tenant, s.datasource, LockedEnvs(files)) <==> LocksFor(s, files, n)
  {
    TargetLocks.LocksOfEnvs(s.tenant, s.datasource, LockedEnvs(files), n);
    LockedAreFilled(files);
    if LocksFor(s, files, n) {
      var i :| 0 <= i < |files| && !Empty(files[i])
               && n == TargetLocks.LockName(s.tenant, s.datasource, files[i].env);
      assert Fills(files, files[i].env);
    }
  }

  /** The results of a run: one per file, in order, then one per skipped path. */
  ghost predicate RunResults(results: seq<SyncResult>, files: seq<EtlFile>, answers: seq<WriteAnswer>,
                             skipped: seq<string>, failed: Option<nat>, outcomes: map<string, Option<PruneOutcome>>)
    requires |files| == |answers|
    requires failed.Some? ==> failed.value < |files| && answers[failed.value].WriteRaises?
  {
    && |results| == |files| + |skipped|
    && results[|files|..] == SkippedResults(skipped)
    && exists base :: |base| == |files| && ResultsFor(base, files, answers, failed)
        && Attached(base, results[..|files|], outcomes)
  }

  /** An environment's prune outcome goes to its last file that was written, and to no other. */
  lemma {:induction false} LastOkIsLast(results: seq<SyncResult>, env: string, i: nat)
    ensures LastOk(results, env) == Some(i) <==>
            && i < |results| && results[i].env == env && results[i].status == StatusOk
            && forall j :: i < j < |results| ==> results[j].env != env || results[j].status != StatusOk
  {
    if results != [] {
      LastOkIsLast(results[..|results| - 1], env, i);
    }
  }

  /**
   How the results line up: one per file, ok or empty as it has keys or not, up to a failed one; that one an
   error with what the write raised, all after it aborted; and then the skipped ones.
   */
  lemma ResultsLineUp(results: seq<SyncResult>, files: seq<EtlFile>, answers: seq<WriteAnswer>, skipped: seq<string>,
                      failed: Option<nat>, outcomes: map<string, Option<PruneOutcome>>, i: nat)
    requires |files| == |answers| && i < |results|
    requires failed.Some? ==> failed.value < |files| && answers[failed.value].WriteRaises?
    requires RunResults(results, files, answers, skipped, failed, outcomes)
    ensures |results| == |files| + |skipped|
    ensures i < |files| ==> results[i].path == files[i].path && results[i].env == files[i].env
    ensures i < |files| && (failed.Some? ==> i < failed.value) ==>
              results[i].status == (if files[i].flat == map[] then StatusEmpty else StatusOk) && results[i].error == ""
    ensures failed == Some(i) ==> results[i].status == StatusError && results[i].error == answers[i].message
    ensures failed.Some? && failed.value < i < |files| ==> results[i].status == StatusAborted
    ensures i >= |files| ==> results[i].status == StatusSkipped && results[i].path == skipped[i - |files|]
  {
    var base :| |base| == |files| && ResultsFor(base, files, answers, failed)
                && Attached(base, results[..|files|], outcomes);
    assert i >= |files| ==> results[i] == results[|files|..][i - |files|];
    assert i < |files| ==> results[i] == results[..|files|][i];
  }

  lemma AttachNothing(results: seq<SyncResult>)
    ensures Attached(results, results, map[])
  {
  }

  /** The files written and, when none failed, the environments pruned. */
  method WriteAndPrune(sink: Sink, s: Setting, files: seq<EtlFile>, answers: seq<WriteAnswer>,
                       stuck: map<FileId, Doc>)
    returns (results: seq<SyncResult>, failed: Option<nat>, ghost outcomes: map<string, Option<PruneOutcome>>)
    requires |files| == |answers|
    modifies sink
    ensures failed.Some? ==>
              failed.value < |files| && Fails(files, answers, failed.value) && NoneFailed(files, answers, failed.value)
    ensures RunResults(results, files, answers, [], failed, outcomes)
    ensures failed.None? ==> NoneFailed(files, answers, |files|)
    ensures failed.Some? ==>
              && sink.deletes == old(sink.deletes) && outcomes == map[]
              && sink.store == StoreAfterFailure(sink.layout, old(sink.store), files, answers, failed.value,
                                                 sink.undoing, stuck)
    ensures failed.None? ==>
              && old(sink.deletes) <= sink.deletes
              && AllPruned(s, sink.cls, files, EnvsOf(files), outcomes, sink.deletes[|old(sink.deletes)|..])
              && sink.store == AfterPrunes(s, sink.layout, sink.cls, files,
                                           StoreAfter(sink.layout, old(sink.store), files, answers, |files|),
                                           EnvsOf(files))
  {
    hide EnvOutcome, MineIn, Attached, ResultsFor;
    outcomes := map[];
    var base, envs, byEnv;
    base, failed, envs, byEnv := WriteFiles(sink, s.repo, files, answers, stuck);
    AttachNothing(base);
    results := base;
    if failed.None? {
      results, outcomes := PruneAll(s, sink, files, envs, byEnv, base);
    }
    AttachedLength(base, results, outcomes);
    assert results[..|files|] == results;
  }

  /** The skipped paths' results come after those of the files. */
  lemma SkippedComeLast(results: seq<SyncResult>, files: seq<EtlFile>, answers: seq<WriteAnswer>, skipped: seq<string>,
                        failed: Option<nat>, outcomes: map<string, Option<PruneOutcome>>)
    requires |files| == |answers|
    requires failed.Some? ==> failed.value < |files| && answers[failed.value].WriteRaises?
    requires RunResults(results, files, answers, [], failed, outcomes)
    ensures RunResults(results + SkippedResults(skipped), files, answers, skipped, failed, outcomes)
  {
    hide Attached, ResultsFor;
    assert results[..|files|] == results;
    assert (results + SkippedResults(skipped))[..|files|] == results;
  }

  /**
   run_stage_sync under its locks. *answers* are what the writes do, *stuck* the files whose restore raises.
   A busy environment raises TargetBusy before the sink is opened. *inside* is who holds what from the first
   write to the last prune.
   */
  method RunStageSync(server: TargetLocks.LockServer, who: nat, sink: Sink, s: Setting, files: seq<EtlFile>,
                      answers: seq<WriteAnswer>, skipped: seq<string>, stuck: map<FileId, Doc>)
    returns (busy: bool, results: seq<SyncResult>, failed: Option<nat>,
             ghost outcomes: map<string, Option<PruneOutcome>>, ghost inside: map<string, nat>)
    requires |files| == |answers|
    modifies server, sink
    ensures server.holder == old(server.holder)
    ensures busy <==> exists i :: 0 <= i < |files| && !Empty(files[i])
                                  && TargetLocks.LockName(s.tenant, s.datasource, files[i].env) in old(server.holder)
    ensures !busy ==> forall n :: n in inside <==> n in old(server.holder) || LocksFor(s, files, n)
    ensures !busy ==> forall n :: n in inside ==>
              inside[n] == if n in old(server.holder) then old(server.holder)[n] else who
    ensures busy ==> results == [] && sink.store == old(sink.store) && sink.deletes == old(sink.deletes)
    ensures failed.Some? ==>
              failed.value < |files| && Fails(files, answers, failed.value) && NoneFailed(files, answers, failed.value)
    ensures !busy ==> RunResults(results, files, answers, skipped, failed, outcomes)
    ensures !busy && failed.None? ==> NoneFailed(files, answers, |files|)
    ensures !busy && failed.Some? ==>
              && sink.deletes == old(sink.deletes) && outcomes == map[]
              && sink.store == StoreAfterFailure(sink.layout, old(sink.store), files, answers, failed.value,
                                                 sink.undoing, stuck)
    ensures !busy && failed.None? ==>
              && old(sink.deletes) <= sink.deletes
              && AllPruned(s, sink.cls, files, EnvsOf(files), outcomes, sink.deletes[|old(sink.deletes)|..])
              && sink.store == AfterPrunes(s, sink.layout, sink.cls, files,
                                           StoreAfter(sink.layout, old(sink.store), files, answers, |files|),
                                           EnvsOf(files))
  {
    hide RunResults, AllPruned, AfterPrunes, StoreAfter, StoreAfterFailure, Fails, NoneFailed;
    results, failed, outcomes, inside := [], None, map[], map[];
    var held;
    forall n {
      LocksAreFor(s, files, n);
    }
    busy, held := server.Enter(who, s.tenant, s.datasource, LockedEnvs(files));
    BusyMeans(s, files, old(server.holder));
    if busy {
      return;
    }
    inside := server.holder;
    results, failed, outcomes := WriteAndPrune(sink, s, files, answers, stuck);
    assert server.holder == inside;
    server.Exit(held);
    assert server.holder == old(server.holder);
    assert failed.Some? ==> answers[failed.value].WriteRaises? by {
      FailsMeans(files, answers, failed);
    }
    SkippedComeLast(results, files, answers, skipped, failed, outcomes);
    results := results + SkippedResults(skipped);
  }

  lemma FailsMeans(files: seq<EtlFile>, answers: seq<WriteAnswer>, failed: Option<nat>)
    requires |files| == |answers|
    requires failed.Some? ==> failed.value < |files| && Fails(files, answers, failed.value)
    ensures failed.Some? ==> answers[failed.value].WriteRaises?
  {
  }

  lemma BusyMeans(s: Setting, files: seq<EtlFile>, holder: map<string, nat>)
    ensures (exists n :: n in TargetLocks.LockNames(s.tenant, s.datasource, LockedEnvs(files)) && n in holder) <==>
            exists i :: 0 <= i < |files| && !Empty(files[i])
                        && TargetLocks.LockName(s.tenant, s.datasource, files[i].env) in holder
  {
    if n :| n in TargetLocks.LockNames(s.tenant, s.datasource, LockedEnvs(files)) && n in holder {
      LocksAreFor(s, files, n);
      var i :| 0 <= i < |files| && !Empty(files[i])
               && n == TargetLocks.LockName(s.tenant, s.datasource, files[i].env);
    }
    if i :| 0 <= i < |files| && !Empty(files[i])
            && TargetLocks.LockName(s.tenant, s.datasource, files[i].env) in holder {
      var n := TargetLocks.LockName(s.tenant, s.datasource, files[i].env);
      assert LocksFor(s, files, n);
      LocksAreFor(s, files, n);
    }
  }

  lemma AttachedLength(before: seq<SyncResult>, after: seq<SyncResult>, outcomes: map<string, Option<PruneOutcome>>)
    requires Attached(before, after, outcomes)
    ensures |after| == |before|
  {
  }
}

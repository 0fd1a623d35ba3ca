/** What a run that did not fail leaves in the sink: what its files wrote, less what its prunes took. */
module RunStores {
  import opened Options
  import opened Ledger
  import opened KeySpaces
  import opened Sinks
  import opened Prune
  import opened StageSync
  import opened Rollback
  import opened SyncRuns

  /** The prune of *env* takes the entry: its key goes from the environment's files and, by key, from its place. */
  ghost predicate Takes(s: Setting, layout: Layout, cls: string, files: seq<EtlFile>, env: string, r: Row) {
    && r.key in Removed(MineIn(s, cls, files, env), s.deleteIn(env))
    && (r.owner.env == env || (layout.PerKey? && layout.spaceOf(r.owner.env) == layout.spaceOf(env)))
  }

  ghost predicate Taken(s: Setting, layout: Layout, cls: string, files: seq<EtlFile>, envs: seq<string>, r: Row) {
    exists i :: 0 <= i < |envs| && Takes(s, layout, cls, files, envs[i], r)
  }

  /** Prunes take what they take and leave everything else. */
  lemma {:induction false} AfterPrunesAt(s: Setting, layout: Layout, cls: string, files: seq<EtlFile>, store: Store,
                                         envs: seq<string>, r: Row)
    ensures Get(AfterPrunes(s, layout, cls, files, store, envs), r)
         == if Taken(s, layout, cls, files, envs, r) then None else Get(store, r)
  {
    if envs != [] {
      var init, env := envs[..|envs| - 1], envs[|envs| - 1];
      var before := AfterPrunes(s, layout, cls, files, store, init);
      AfterPrunesAt(s, layout, cls, files, store, init, r);
      RowAfterRemove(layout, before, env, Removed(MineIn(s, cls, files, env), s.deleteIn(env)), r);
      hide Takes, AfterPrunes, RemoveKeys, MineIn, Removed;
      TakenOneMore(s, layout, cls, files, envs, r);
    }
  }

  lemma TakenOneMore(s: Setting, layout: Layout, cls: string, files: seq<EtlFile>, envs: seq<string>, r: Row)
    requires envs != []
    ensures Taken(s, layout, cls, files, envs, r) <==>
            || Taken(s, layout, cls, files, envs[..|envs| - 1], r)
            || Takes(s, layout, cls, files, envs[|envs| - 1], r)
  {
    hide Takes;
    var init := envs[..|envs| - 1];
    if Taken(s, layout, cls, files, init, r) {
      var i :| 0 <= i < |init| && Takes(s, layout, cls, files, init[i], r);
      assert envs[i] == init[i];
    }
    if Taken(s, layout, cls, files, envs, r) {
      var i :| 0 <= i < |envs| && Takes(s, layout, cls, files, envs[i], r);
      assert i < |init| ==> init[i] == envs[i];
    }
  }

  /** The last of the files with keys that are written to *path* in *env*. */
  ghost predicate LastAt(files: seq<EtlFile>, n: nat, env: string, path: string, i: nat)
    requires n <= |files|
  {
    && i < n && files[i].env == env && files[i].path == path && files[i].flat != map[]
    && forall j :: i < j < n ==> files[j].env != env || files[j].path != path || files[j].flat == map[]
  }

  lemma {:induction false} LastWriteIsLastAt(files: seq<EtlFile>, answers: seq<WriteAnswer>, n: nat, env: string,
                                             path: string, i: nat)
    requires n <= |files| == |answers| && NoneFailed(files, answers, n) && LastAt(files, n, env, path, i)
    ensures answers[i].Written? && LastWrite(files, answers, n, FileId(env, path)) == Some(answers[i].doc)
  {
    if i < n - 1 {
      LastWriteIsLastAt(files, answers, n - 1, env, path, i);
    }
    assert !Fails(files, answers, n - 1) && !Fails(files, answers, i);
  }

  /**
   With an object per file, after a run that did not fail every file is in the sink as it was written last, key
   by key, but for the keys that its environment's prune took.
   */
  lemma FileIsAsWritten(s: Setting, cls: string, files: seq<EtlFile>, answers: seq<WriteAnswer>, store: Store,
                        i: nat, key: Key)
    requires |files| == |answers| && NoneFailed(files, answers, |files|) && i < |files|
    requires LastAt(files, |files|, files[i].env, files[i].path, i)
    ensures answers[i].Written?
    ensures var r := Row(FileId(files[i].env, files[i].path), key);
            var after := AfterPrunes(s, PerFile, cls, files, StoreAfter(PerFile, store, files, answers, |files|),
                                     EnvsOf(files));
            Get(after, r) == if key in Removed(MineIn(s, cls, files, files[i].env), s.deleteIn(files[i].env)) then None
                             else Get(answers[i].doc, key)
  {
    var r := Row(FileId(files[i].env, files[i].path), key);
    AfterPrunesAt(s, PerFile, cls, files, StoreAfter(PerFile, store, files, answers, |files|), EnvsOf(files), r);
    StoreByFile(store, files, answers, |files|, r);
    LastWriteIsLastAt(files, answers, |files|, files[i].env, files[i].path, i);
    EnvsAreDistinct(files);
    assert Fills(files, files[i].env);
    hide AfterPrunes, StoreAfter, MineIn, Removed;
    if Takes(s, PerFile, cls, files, files[i].env, r) {
      var j :| 0 <= j < |EnvsOf(files)| && EnvsOf(files)[j] == files[i].env;
    }
  }

  /** The last file whose write set the key in the place *spaceOf* keeps it in. */
  ghost predicate SetsLast(spaceOf: string -> string, files: seq<EtlFile>, answers: seq<WriteAnswer>, n: nat, key: Key,
                           i: nat)
    requires n <= |files| == |answers|
  {
    && i < n && files[i].flat != map[] && answers[i].Written? && key in answers[i].doc
    && forall j :: i < j < n && spaceOf(files[j].env) == spaceOf(files[i].env) ==>
                     files[j].flat == map[] || answers[j].WriteRaises? || key !in answers[j].doc
  }

  lemma {:induction false} LastSetterSetsLast(spaceOf: string -> string, files: seq<EtlFile>,
                                              answers: seq<WriteAnswer>, n: nat, key: Key, i: nat)
    requires n <= |files| == |answers| && SetsLast(spaceOf, files, answers, n, key, i)
    ensures LastSetter(PerKey(spaceOf), files, answers, n, files[i].env, key) == Some(i)
  {
    if i < n - 1 {
      LastSetterSetsLast(spaceOf, files, answers, n - 1, key, i);
    }
  }

  /**
   With an entry per key, after a run that did not fail each key set is held by the file that set it last, with
   the value it set, unless the prune of an environment in the same place took it.
   */
  lemma KeyIsAsWritten(s: Setting, spaceOf: string -> string, cls: string, files: seq<EtlFile>,
                       answers: seq<WriteAnswer>, store: Store, i: nat, key: Key)
    requires |files| == |answers| && SetsLast(spaceOf, files, answers, |files|, key, i)
    ensures var r := Row(FileId(files[i].env, files[i].path), key);
            var after := AfterPrunes(s, PerKey(spaceOf), cls, files,
                                     StoreAfter(PerKey(spaceOf), store, files, answers, |files|), EnvsOf(files));
            Get(after, r) == if Taken(s, PerKey(spaceOf), cls, files, EnvsOf(files), r) then None
                             else Some(answers[i].doc[key])
  {
    var r := Row(FileId(files[i].env, files[i].path), key);
    AfterPrunesAt(s, PerKey(spaceOf), cls, files, StoreAfter(PerKey(spaceOf), store, files, answers, |files|),
                  EnvsOf(files), r);
    StoreByKey(PerKey(spaceOf), store, files, answers, |files|, r);
    LastSetterSetsLast(spaceOf, files, answers, |files|, key, i);
  }

  /** No prune takes a key that a file of its environment has: so every key of every file is there, as written. */
  lemma WrittenKeysStay(s: Setting, cls: string, files: seq<EtlFile>, answers: seq<WriteAnswer>, store: Store,
                        i: nat, key: Key)
    requires |files| == |answers| && NoneFailed(files, answers, |files|) && i < |files|
    requires LastAt(files, |files|, files[i].env, files[i].path, i) && key in files[i].flat
    ensures answers[i].Written?
    ensures var after := AfterPrunes(s, PerFile, cls, files, StoreAfter(PerFile, store, files, answers, |files|),
                                     EnvsOf(files));
            Get(after, Row(FileId(files[i].env, files[i].path), key)) == Get(answers[i].doc, key)
  {
    FileIsAsWritten(s, cls, files, answers, store, i, key);
    hide AfterPrunes, StoreAfter;
    OwnKeyIsNotMine(s, cls, files, i, key);
  }

  lemma OwnKeyIsNotMine(s: Setting, cls: string, files: seq<EtlFile>, i: nat, key: Key)
    requires i < |files| && LastAt(files, |files|, files[i].env, files[i].path, i) && key in files[i].flat
    ensures key !in Removed(MineIn(s, cls, files, files[i].env), s.deleteIn(files[i].env))
  {
    var ws := WritingsOf(s.repo, files, files[i].env);
    LastWritingsCount(s.repo, files, files[i].env);
    assert WritesTo(files, i, files[i].env) && IsLastOf(files, files[i].env, i);
    var w := WritingOf(s.repo, files[i]);
    assert SaysAll(s.repo, files[i], w) && IsLastWriting(s.repo, files, files[i].env, w);
    var j :| 0 <= j < |ws| && ws[j] == w;
    assert key in WrittenKeys(ws);
  }
}

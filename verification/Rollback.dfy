/**
 What a failed sync leaves in the sink: whether the rollback of run_stage_sync gives everything back, for
 sinks that keep an object per file and for those that keep an entry per key.
 */
module Rollback {
  import opened Options
  import opened Ledger
  import opened Sinks
  import opened StageSync

  /** File i is written to f. */
  predicate WritesFile(files: seq<EtlFile>, i: nat, f: FileId)
    requires i < |files|
  {
    !Empty(files[i]) && IdOf(files[i]) == f
  }

  /** File f is among the first n files written. */
  ghost predicate WrittenBefore(files: seq<EtlFile>, n: nat, f: FileId)
    requires n <= |files|
  {
    exists i :: 0 <= i < n && WritesFile(files, i, f)
  }

  /** No (environment, path) pair is written twice among the first n files. */
  ghost predicate DistinctWrites(files: seq<EtlFile>, n: nat)
    requires n <= |files|
  {
    forall i, j :: 0 <= i < j < n && !Empty(files[i]) && !Empty(files[j]) ==> IdOf(files[i]) != IdOf(files[j])
  }

  /**
   Every write that goes through writes what it should: an object holds the file's keys, whatever else it
   keeps beside them; of single entries only the file's own are set, perhaps not those found unchanged.
   */
  ghost predicate WritesHold(layout: Layout, files: seq<EtlFile>, answers: seq<WriteAnswer>, n: nat)
    requires n <= |files| == |answers|
  {
    forall i, key :: 0 <= i < n && !Empty(files[i]) && answers[i].Written? ==>
      (layout.PerFile? && key in files[i].flat ==> Get(answers[i].doc, key) == Some(files[i].flat[key]))
      && (layout.PerKey? && key in answers[i].doc ==> Get(files[i].flat, key) == Some(answers[i].doc[key]))
  }

  /** The run's k-th write raises, leaving the store alone, and nothing before it failed. */
  ghost predicate FailsCleanlyAt(layout: Layout, store: Store, files: seq<EtlFile>, answers: seq<WriteAnswer>, k: nat) {
    && k < |files| == |answers|
    && Fails(files, answers, k)
    && NoneFailed(files, answers, k)
    && WritesHold(layout, files, answers, k)
    && StoreAtFailure(layout, store, files, answers, k) == StoreAfter(layout, store, files, answers, k)
  }

  // -- The rollback, row by row -------------------------------------------------

  /** What a rollback gives f back: the snapshot taken at its last write. */
  function LastSnapshot(undo: seq<UndoEntry>, f: FileId): Option<Doc> {
    if undo == [] then None
    else if undo[|undo| - 1].file == f then Some(undo[|undo| - 1].snapshot)
    else LastSnapshot(undo[..|undo| - 1], f)
  }

  lemma {:induction false} RolledBackAt(store: Store, undo: seq<UndoEntry>, undoing: Undoing, stuck: map<FileId, Doc>,
                                        r: Row)
    ensures Get(RolledBack(store, undo, undoing, stuck), r) ==
            if undoing == Ignores || LastSnapshot(undo, r.owner) == None then Get(store, r)
            else if r.owner in stuck then Get(stuck[r.owner], r.key)
            else Get(LastSnapshot(undo, r.owner).value, r.key)
  {
    if undo != [] {
      var last := undo[|undo| - 1];
      var before := RolledBack(store, undo[..|undo| - 1], undoing, stuck);
      RolledBackAt(store, undo[..|undo| - 1], undoing, stuck, r);
      RowAfterReset(before, last.file, if last.file in stuck then stuck[last.file] else last.snapshot, r);
    }
  }

  // -- The writes, row by row ---------------------------------------------------

  /** What the last write of f among the first n files left. */
  function LastWrite(files: seq<EtlFile>, answers: seq<WriteAnswer>, n: nat, f: FileId): Option<Doc>
    requires n <= |files| == |answers|
  {
    if n == 0 then None
    else if WritesFile(files, n - 1, f) && answers[n - 1].Written? then Some(answers[n - 1].doc)
    else LastWrite(files, answers, n - 1, f)
  }

  lemma {:induction false} StoreByFile(store: Store, files: seq<EtlFile>, answers: seq<WriteAnswer>, n: nat, r: Row)
    requires n <= |files| == |answers|
    ensures Get(StoreAfter(PerFile, store, files, answers, n), r) ==
            match LastWrite(files, answers, n, r.owner)
            case None => Get(store, r)
            case Some(doc) => Get(doc, r.key)
  {
    hide Put;
    if n > 0 {
      StoreByFile(store, files, answers, n - 1, r);
      if answers[n - 1].Written? {
        RowAfterPut(PerFile, StoreAfter(PerFile, store, files, answers, n - 1), IdOf(files[n - 1]), answers[n - 1].doc,
                    r);
      }
    }
  }

  /** File i sets the key where environment env keeps it. */
  predicate Sets(layout: Layout, files: seq<EtlFile>, answers: seq<WriteAnswer>, i: nat, env: string, key: Key)
    requires i < |files| == |answers|
  {
    !Empty(files[i]) && answers[i].Written? && Shares(layout, env, files[i].env) && key in answers[i].doc
  }

  /** The last of the first n files that sets the key. */
  function LastSetter(layout: Layout, files: seq<EtlFile>, answers: seq<WriteAnswer>, n: nat, env: string, key: Key):
    Option<nat>
    requires n <= |files| == |answers|
    ensures match LastSetter(layout, files, answers, n, env, key)
            case None => forall i :: 0 <= i < n ==> !Sets(layout, files, answers, i, env, key)
            case Some(i) => i < n && Sets(layout, files, answers, i, env, key)
  {
    if n == 0 then None
    else if Sets(layout, files, answers, n - 1, env, key) then Some(n - 1)
    else LastSetter(layout, files, answers, n - 1, env, key)
  }

  lemma {:induction false} StoreByKey(layout: Layout, store: Store, files: seq<EtlFile>, answers: seq<WriteAnswer>,
                                      n: nat, r: Row)
    requires n <= |files| == |answers| && layout.PerKey?
    ensures Get(StoreAfter(layout, store, files, answers, n), r) ==
            match LastSetter(layout, files, answers, n, r.owner.env, r.key)
            case None => Get(store, r)
            case Some(i) => if IdOf(files[i]) == r.owner then Get(answers[i].doc, r.key) else None
  {
    hide Put;
    if n > 0 {
      StoreByKey(layout, store, files, answers, n - 1, r);
      if answers[n - 1].Written? {
        RowAfterPut(layout, StoreAfter(layout, store, files, answers, n - 1), IdOf(files[n - 1]), answers[n - 1].doc,
                    r);
      }
    }
  }

  // -- Sinks that undo nothing --------------------------------------------------

  /**
   An object per file and no rollback: after a failure at file k each file holds what its last write left,
   the failing one what its failed write left, and the others what they held before.
   */
  lemma FailedRunKeepsFiles(store: Store, files: seq<EtlFile>, answers: seq<WriteAnswer>, k: nat,
                            stuck: map<FileId, Doc>, r: Row)
    requires k < |files| == |answers| && Fails(files, answers, k)
    ensures Get(StoreAfterFailure(PerFile, store, files, answers, k, Ignores, stuck), r) ==
            if r.owner == IdOf(files[k]) then Get(answers[k].left, r.key)
            else
              match LastWrite(files, answers, k, r.owner)
              case None => Get(store, r)
              case Some(doc) => Get(doc, r.key)
  {
    var failed := StoreAtFailure(PerFile, store, files, answers, k);
    RolledBackAt(failed, UndoList(PerFile, store, files, answers, k), Ignores, stuck, r);
    RowAfterPut(PerFile, StoreAfter(PerFile, store, files, answers, k), IdOf(files[k]), answers[k].left, r);
    StoreByFile(store, files, answers, k, r);
  }

  /**
   An entry per key and no rollback: each key is held by the file that set it last, the failing one
   included, with that file's value; a file written earlier no longer holds a key that a later one set.
   */
  lemma FailedRunKeepsKeys(layout: Layout, store: Store, files: seq<EtlFile>, answers: seq<WriteAnswer>, k: nat,
                           stuck: map<FileId, Doc>, r: Row)
    requires k < |files| == |answers| && Fails(files, answers, k) && layout.PerKey?
    ensures Get(StoreAfterFailure(layout, store, files, answers, k, Ignores, stuck), r) ==
            if r.key in answers[k].left && Shares(layout, r.owner.env, files[k].env) then
              if r.owner == IdOf(files[k]) then Some(answers[k].left[r.key]) else None
            else
              match LastSetter(layout, files, answers, k, r.owner.env, r.key)
              case None => Get(store, r)
              case Some(i) => if r.owner == IdOf(files[i]) then Get(answers[i].doc, r.key) else None
  {
    var failed := StoreAtFailure(layout, store, files, answers, k);
    RolledBackAt(failed, UndoList(layout, store, files, answers, k), Ignores, stuck, r);
    RowAfterPut(layout, StoreAfter(layout, store, files, answers, k), IdOf(files[k]), answers[k].left, r);
    StoreByKey(layout, store, files, answers, k, r);
  }

  // -- Restoring, an object per file --------------------------------------------

  /** With distinct files, what the rollback gives back is what was there before the run. */
  lemma {:induction false} SnapshotsAreOriginals(store: Store, files: seq<EtlFile>, answers: seq<WriteAnswer>, n: nat,
                                                 f: FileId)
    requires n <= |files| == |answers| && DistinctWrites(files, n)
    ensures LastSnapshot(UndoList(PerFile, store, files, answers, n), f)
         == if WrittenBefore(files, n, f) then Some(DocOf(store, f)) else None
  {
    var turn := Turn(files, n, f);
    SnapshotAtTurn(PerFile, store, files, answers, n, f);
    assert WrittenBefore(files, n, f) <==> turn < n;
    if turn < n {
      SameDoc(StoreAfter(PerFile, store, files, answers, turn), store, files, answers, turn, f);
    }
  }

  lemma SameDoc(after: Store, store: Store, files: seq<EtlFile>, answers: seq<WriteAnswer>, n: nat, f: FileId)
    requires n <= |files| == |answers| && !WrittenBefore(files, n, f)
    requires after == StoreAfter(PerFile, store, files, answers, n)
    ensures DocOf(after, f) == DocOf(store, f)
  {
    NoLastWrite(files, answers, n, f);
    forall key ensures Get(DocOf(after, f), key) == Get(DocOf(store, f), key) {
      DocAt(after, f, key);
      DocAt(store, f, key);
      StoreByFile(store, files, answers, n, Row(f, key));
    }
    SameDocs(DocOf(after, f), DocOf(store, f));
  }

  lemma SameDocs(a: Doc, b: Doc)
    requires forall key :: Get(a, key) == Get(b, key)
    ensures a == b
  {
    forall key ensures key in a <==> key in b {
      assert Get(a, key) == Get(b, key);
    }
    forall key | key in a ensures a[key] == b[key] {
      assert Get(a, key) == Get(b, key);
    }
  }

  lemma {:induction false} NoLastWrite(files: seq<EtlFile>, answers: seq<WriteAnswer>, n: nat, f: FileId)
    requires n <= |files| == |answers| && !WrittenBefore(files, n, f)
    ensures LastWrite(files, answers, n, f) == None
  {
    if n > 0 {
      assert !WrittenBefore(files, n - 1, f);
      NoLastWrite(files, answers, n - 1, f);
    }
  }

  /**
   A run that fails at file k puts every file it had written back as it was, except that one whose restore
   raised holds what that left; the failing file holds what its write left, unless it was written before.
   */
  lemma FailedRunRestoresFiles(store: Store, files: seq<EtlFile>, answers: seq<WriteAnswer>, k: nat,
                               stuck: map<FileId, Doc>, r: Row)
    requires k < |files| == |answers| && Fails(files, answers, k) && DistinctWrites(files, k)
    ensures Get(StoreAfterFailure(PerFile, store, files, answers, k, Restores, stuck), r) ==
            if WrittenBefore(files, k, r.owner) then
              if r.owner in stuck then Get(stuck[r.owner], r.key) else Get(store, r)
            else if r.owner == IdOf(files[k]) then Get(answers[k].left, r.key)
            else Get(store, r)
  {
    var failed := StoreAtFailure(PerFile, store, files, answers, k);
    SnapshotsAreOriginals(store, files, answers, k, r.owner);
    RolledBackAt(failed, UndoList(PerFile, store, files, answers, k), Restores, stuck, r);
    DocAt(store, r.owner, r.key);
    if !WrittenBefore(files, k, r.owner) {
      RowAfterPut(PerFile, StoreAfter(PerFile, store, files, answers, k), IdOf(files[k]), answers[k].left, r);
      NoLastWrite(files, answers, k, r.owner);
      StoreByFile(store, files, answers, k, r);
    }
  }

  lemma DistinctFilesComeBack(store: Store, files: seq<EtlFile>, answers: seq<WriteAnswer>, k: nat)
    requires FailsCleanlyAt(PerFile, store, files, answers, k) && DistinctWrites(files, k)
    ensures StoreAfterFailure(PerFile, store, files, answers, k, Restores, map[]) == store
  {
    var after := StoreAfterFailure(PerFile, store, files, answers, k, Restores, map[]);
    forall r ensures Get(after, r) == Get(store, r) {
      FailedRunRestoresFiles(store, files, answers, k, map[], r);
      if !WrittenBefore(files, k, r.owner) {
        RowAfterPut(PerFile, StoreAfter(PerFile, store, files, answers, k), IdOf(files[k]), answers[k].left, r);
        NoLastWrite(files, answers, k, r.owner);
        StoreByFile(store, files, answers, k, r);
      }
    }
    SameStore(after, store);
  }

  // -- Restoring, an entry per key ----------------------------------------------

  /** When it is f's turn among the first k files; k when it is not among them. */
  function Turn(files: seq<EtlFile>, k: nat, f: FileId): (turn: nat)
    requires k <= |files|
    ensures turn <= k && (turn < k ==> WritesFile(files, turn, f))
    ensures forall i :: 0 <= i < turn ==> !WritesFile(files, i, f)
  {
    if k == 0 then 0
    else if Turn(files, k - 1, f) < k - 1 then Turn(files, k - 1, f)
    else if WritesFile(files, k - 1, f) then k - 1
    else k
  }

  /** No file that is written before the row's owner, in a run that stops at k, sets its key. */
  ghost predicate NotTakenOver(layout: Layout, files: seq<EtlFile>, answers: seq<WriteAnswer>, k: nat, r: Row)
    requires k <= |files| == |answers|
  {
    forall i :: 0 <= i < Turn(files, k, r.owner) ==> !Sets(layout, files, answers, i, r.owner.env, r.key)
  }

  lemma {:induction false} SnapshotAtTurn(layout: Layout, store: Store, files: seq<EtlFile>,
                                          answers: seq<WriteAnswer>, n: nat, f: FileId)
    requires n <= |files| == |answers| && DistinctWrites(files, n)
    ensures LastSnapshot(UndoList(layout, store, files, answers, n), f) ==
            if Turn(files, n, f) < n then Some(DocOf(StoreAfter(layout, store, files, answers, Turn(files, n, f)), f))
                else None
  {
    hide StoreAfter, DocOf;
    if n > 0 {
      SnapshotAtTurn(layout, store, files, answers, n - 1, f);
    }
  }

  /**
   What a row is after a clean failure: what it was before, when no file written before its owner sets its
   key; otherwise it is gone. A write takes the key over from its owner, and neither the restore of the
   taking file, whose snapshot lacks it, nor that of the owner, if it comes later, brings it back.
   */
  lemma RowComesBackExactly(layout: Layout, store: Store, files: seq<EtlFile>, answers: seq<WriteAnswer>, k: nat,
                            r: Row)
    requires layout.PerKey? && FailsCleanlyAt(layout, store, files, answers, k) && DistinctWrites(files, k)
    ensures Get(StoreAfterFailure(layout, store, files, answers, k, Restores, map[]), r) ==
            if NotTakenOver(layout, files, answers, k, r) then Get(store, r) else None
  {
    hide StoreAfter, UndoList, RolledBack, DocOf, StoreAtFailure, LastSnapshot, Put;
    var turn := Turn(files, k, r.owner);
    var undo := UndoList(layout, store, files, answers, k);
    RolledBackAt(StoreAfter(layout, store, files, answers, k), undo, Restores, map[], r);
    SnapshotAtTurn(layout, store, files, answers, k, r.owner);
    DocAt(StoreAfter(layout, store, files, answers, turn), r.owner, r.key);
    StoreByKey(layout, store, files, answers, turn, r);
    assert r == Row(r.owner, r.key);
    if LastSetter(layout, files, answers, turn, r.owner.env, r.key).Some? {
      assert !WritesFile(files, LastSetter(layout, files, answers, turn, r.owner.env, r.key).value, r.owner);
    }
  }

  /**
   So a clean failure gives back the whole of a key-value store exactly when every entry in it was out of
   reach: no file written before its owner sets its key.
   */
  lemma PerKeyRollbackIsExact(layout: Layout, store: Store, files: seq<EtlFile>, answers: seq<WriteAnswer>, k: nat)
    requires layout.PerKey? && FailsCleanlyAt(layout, store, files, answers, k) && DistinctWrites(files, k)
    ensures StoreAfterFailure(layout, store, files, answers, k, Restores, map[]) == store <==>
            forall r :: r in store ==> NotTakenOver(layout, files, answers, k, r)
  {
    var after := StoreAfterFailure(layout, store, files, answers, k, Restores, map[]);
    forall r ensures Get(after, r) == if NotTakenOver(layout, files, answers, k, r) then Get(store, r) else None {
      RowComesBackExactly(layout, store, files, answers, k, r);
    }
    hide StoreAfterFailure, NotTakenOver;
    if forall r :: r in store ==> NotTakenOver(layout, files, answers, k, r) {
      forall r ensures Get(after, r) == Get(store, r) {
      }
      SameStore(after, store);
    }
  }

  // -- A file written twice -----------------------------------------------------

  /** Every write leaves exactly the file's own keys, and the k-th raises. */
  function OwnWrites(files: seq<EtlFile>, k: nat, left: Doc): (r: seq<WriteAnswer>)
    ensures |r| == |files|
  {
    seq(|files|, i requires 0 <= i < |files| => if i == k then WriteRaises("", left) else Written(files[i].flat))
  }

  /** What the last write of f leaves, when every write leaves the file's own keys; and the one before it. */
  function LastOwn(files: seq<EtlFile>, n: nat, f: FileId): Option<Doc>
    requires n <= |files|
  {
    if n == 0 then None
    else if WritesFile(files, n - 1, f) then Some(files[n - 1].flat)
    else LastOwn(files, n - 1, f)
  }

  function OwnBefore(files: seq<EtlFile>, n: nat, f: FileId): Option<Doc>
    requires n <= |files|
  {
    if n == 0 then None
    else if WritesFile(files, n - 1, f) then LastOwn(files, n - 1, f)
    else OwnBefore(files, n - 1, f)
  }

  lemma {:induction false} OwnIsLast(files: seq<EtlFile>, k: nat, left: Doc, n: nat, f: FileId)
    requires n <= k < |files|
    ensures LastWrite(files, OwnWrites(files, k, left), n, f) == LastOwn(files, n, f)
  {
    if n > 0 {
      OwnIsLast(files, k, left, n - 1, f);
    }
  }

  lemma {:induction false} OwnSnapshot(store: Store, files: seq<EtlFile>, k: nat, left: Doc, n: nat, r: Row)
    requires n <= k < |files| && OwnBefore(files, n, r.owner).Some?
    ensures var undo := UndoList(PerFile, store, files, OwnWrites(files, k, left), n);
            && LastSnapshot(undo, r.owner).Some?
            && Get(LastSnapshot(undo, r.owner).value, r.key) == Get(OwnBefore(files, n, r.owner).value, r.key)
  {
    var answers := OwnWrites(files, k, left);
    hide StoreAfter, DocOf, LastWrite;
    if WritesFile(files, n - 1, r.owner) {
      var before := StoreAfter(PerFile, store, files, answers, n - 1);
      OwnIsLast(files, k, left, n - 1, r.owner);
      StoreByFile(store, files, answers, n - 1, r);
      DocAt(before, r.owner, r.key);
    } else {
      OwnSnapshot(store, files, k, left, n - 1, r);
    }
  }

  lemma {:induction false} WrittenTwice(files: seq<EtlFile>, n: nat, i: nat, j: nat)
    requires i < j < n <= |files| && !Empty(files[i]) && !Empty(files[j]) && IdOf(files[i]) == IdOf(files[j])
    ensures OwnBefore(files, n, IdOf(files[i])).Some?
  {
    if n - 1 > j {
      WrittenTwice(files, n - 1, i, j);
      WrittenOnce(files, n - 1, i);
    } else {
      WrittenOnce(files, j, i);
    }
  }

  lemma {:induction false} WrittenOnce(files: seq<EtlFile>, n: nat, i: nat)
    requires i < n <= |files| && !Empty(files[i])
    ensures LastOwn(files, n, IdOf(files[i])).Some?
  {
    if n - 1 > i {
      WrittenOnce(files, n - 1, i);
    }
  }

  /** Writing to f what leaves its layout's store alone. */
  function NoTrace(layout: Layout, store: Store, f: FileId): Doc {
    if layout.PerFile? then DocOf(store, f) else map[]
  }

  lemma NoTraceChangesNothing(layout: Layout, store: Store, f: FileId)
    ensures Put(layout, store, f, NoTrace(layout, store, f)) == store
  {
    var doc := NoTrace(layout, store, f);
    forall r ensures Get(Put(layout, store, f, doc), r) == Get(store, r) {
      RowAfterPut(layout, store, f, doc, r);
      DocAt(store, f, r.key);
    }
    SameStore(Put(layout, store, f, doc), store);
  }

  /** The run in which each write leaves the file's own keys and the k-th raises without a trace. */
  lemma OwnWritesFailCleanly(layout: Layout, store: Store, files: seq<EtlFile>, k: nat) returns (left: Doc)
    requires k < |files| && !Empty(files[k])
    ensures FailsCleanlyAt(layout, store, files, OwnWrites(files, k, left), k)
  {
    hide StoreAfter, Put, DocOf, NoTrace;
    var before := StoreAfter(layout, store, files, OwnWrites(files, k, map[]), k);
    left := NoTrace(layout, before, IdOf(files[k]));
    NoTraceChangesNothing(layout, before, IdOf(files[k]));
    SameUntilFailure(layout, store, files, k, map[], left, k);
    OwnWritesHold(layout, files, k, left);
  }

  lemma OwnWritesHold(layout: Layout, files: seq<EtlFile>, k: nat, left: Doc)
    requires k < |files| && !Empty(files[k])
    ensures var answers := OwnWrites(files, k, left);
            Fails(files, answers, k) && NoneFailed(files, answers, k) && WritesHold(layout, files, answers, k)
  {
  }

  lemma {:induction false} SameUntilFailure(layout: Layout, store: Store, files: seq<EtlFile>, k: nat, a: Doc, b: Doc,
                                            n: nat)
    requires n <= k < |files|
    ensures StoreAfter(layout, store, files, OwnWrites(files, k, a), n)
              == StoreAfter(layout, store, files, OwnWrites(files, k, b), n)
  {
    hide Put;
    if n > 0 {
      SameUntilFailure(layout, store, files, k, a, b, n - 1);
    }
  }

  /** Another value for a key. */
  function OtherValue(value: Option<string>): (r: string)
    ensures Some(r) != value
  {
    if value == Some("1") then "2" else "1"
  }

  lemma TwiceWrittenIsNotRestored(files: seq<EtlFile>, k: nat)
    requires k < |files| && !Empty(files[k]) && !DistinctWrites(files, k)
    ensures exists store, answers :: FailsCleanlyAt(PerFile, store, files, answers, k)
                                  && StoreAfterFailure(PerFile, store, files, answers, k, Restores, map[]) != store
  {
    var i, j :| 0 <= i < j < k && !Empty(files[i]) && !Empty(files[j]) && IdOf(files[i]) == IdOf(files[j]);
    var f := IdOf(files[i]);
    WrittenTwice(files, k, i, j);
    var r := Row(f, "key");
    var store: Store := map[r := OtherValue(Get(OwnBefore(files, k, f).value, "key"))];
    var left := OwnWritesFailCleanly(PerFile, store, files, k);
    OwnWritesComeBack(store, files, k, left, r);
    IsWitness(store, files, OwnWrites(files, k, left), k, r);
  }

  lemma IsWitness(store: Store, files: seq<EtlFile>, answers: seq<WriteAnswer>, k: nat, r: Row)
    requires FailsCleanlyAt(PerFile, store, files, answers, k)
    requires Get(StoreAfterFailure(PerFile, store, files, answers, k, Restores, map[]), r) != Get(store, r)
    ensures exists store, answers :: FailsCleanlyAt(PerFile, store, files, answers, k)
                                  && StoreAfterFailure(PerFile, store, files, answers, k, Restores, map[]) != store
  {
    hide *;
  }

  lemma OwnWritesComeBack(store: Store, files: seq<EtlFile>, k: nat, left: Doc, r: Row)
    requires k < |files| && !Empty(files[k]) && OwnBefore(files, k, r.owner).Some?
    ensures Get(StoreAfterFailure(PerFile, store, files, OwnWrites(files, k, left), k, Restores, map[]), r)
         == Get(OwnBefore(files, k, r.owner).value, r.key)
  {
    var answers := OwnWrites(files, k, left);
    hide StoreAtFailure, UndoList, RolledBack, OwnBefore, LastSnapshot;
    OwnSnapshot(store, files, k, left, k, r);
    RolledBackAt(StoreAtFailure(PerFile, store, files, answers, k), UndoList(PerFile, store, files, answers, k),
                 Restores, map[], r);
  }

  /**
   An object per file: a clean failure at file k gives the whole store back, whatever it held and whatever
   the writes left, exactly when no file was written twice before it: the restores run first write first,
   so the last one brings back what the first write put there.
   */
  lemma PerFileRollbackIsExact(files: seq<EtlFile>, k: nat)
    requires k < |files| && !Empty(files[k])
    ensures DistinctWrites(files, k) <==>
            forall store, answers :: FailsCleanlyAt(PerFile, store, files, answers, k) ==>
                                       StoreAfterFailure(PerFile, store, files, answers, k, Restores, map[]) == store
  {
    if DistinctWrites(files, k) {
      forall store, answers | FailsCleanlyAt(PerFile, store, files, answers, k)
        ensures StoreAfterFailure(PerFile, store, files, answers, k, Restores, map[]) == store
      {
        DistinctFilesComeBack(store, files, answers, k);
      }
    } else {
      TwiceWrittenIsNotRestored(files, k);
    }
  }

  /** Each file once: file_collector reads every path at most once, so this is all run_stage_sync is ever given. */
  ghost predicate Collected(files: seq<EtlFile>) {
    forall i, j :: 0 <= i < j < |files| ==> files[i].path != files[j].path
  }

  /** What a clean failure of any collected run leaves in a sink that restores. */
  lemma CollectedRunIsUndoneExactly(layout: Layout, store: Store, files: seq<EtlFile>, answers: seq<WriteAnswer>,
                                    k: nat)
    requires Collected(files) && FailsCleanlyAt(layout, store, files, answers, k)
    ensures StoreAfterFailure(layout, store, files, answers, k, Restores, map[]) == store <==>
            layout.PerFile? || forall r :: r in store ==> NotTakenOver(layout, files, answers, k, r)
  {
    if layout.PerFile? {
      DistinctFilesComeBack(store, files, answers, k);
    } else {
      PerKeyRollbackIsExact(layout, store, files, answers, k);
    }
  }

  // -- No rollback at all -------------------------------------------------------

  /**
   A sink that ignores rollbacks gives the store back from every clean failure exactly when nothing was
   written before it.
   */
  lemma IgnoredRollbackIsExact(layout: Layout, files: seq<EtlFile>, k: nat)
    requires k < |files| && !Empty(files[k])
    ensures (forall i :: 0 <= i < k ==> Empty(files[i])) <==>
            forall store, answers :: FailsCleanlyAt(layout, store, files, answers, k) ==>
                                       StoreAfterFailure(layout, store, files, answers, k, Ignores, map[]) == store
  {
    if forall i :: 0 <= i < k ==> Empty(files[i]) {
      forall store, answers | FailsCleanlyAt(layout, store, files, answers, k)
        ensures StoreAfterFailure(layout, store, files, answers, k, Ignores, map[]) == store
      {
        NothingWritten(layout, store, files, answers, k);
        IgnoredStays(layout, store, files, answers, k);
      }
    } else {
      var i :| 0 <= i < k && !Empty(files[i]);
      IgnoredWriteStays(layout, files, k, i);
    }
  }

  lemma IgnoredStays(layout: Layout, store: Store, files: seq<EtlFile>, answers: seq<WriteAnswer>, k: nat)
    requires FailsCleanlyAt(layout, store, files, answers, k)
    ensures StoreAfterFailure(layout, store, files, answers, k, Ignores, map[])
              == StoreAfter(layout, store, files, answers, k)
  {
    var after, failed := StoreAfterFailure(layout, store, files, answers, k, Ignores, map[]),
        StoreAfter(layout, store, files, answers, k);
    forall r ensures Get(after, r) == Get(failed, r) {
      RolledBackAt(failed, UndoList(layout, store, files, answers, k), Ignores, map[], r);
    }
    SameStore(after, failed);
  }

  lemma {:induction false} NothingWritten(layout: Layout, store: Store, files: seq<EtlFile>,
                                          answers: seq<WriteAnswer>, n: nat)
    requires n <= |files| == |answers| && forall i :: 0 <= i < n ==> Empty(files[i])
    ensures StoreAfter(layout, store, files, answers, n) == store
  {
    if n > 0 {
      NothingWritten(layout, store, files, answers, n - 1);
    }
  }

  /** From an empty store, something written before the failure is still there. */
  lemma IgnoredWriteStays(layout: Layout, files: seq<EtlFile>, k: nat, i: nat)
    requires i < k < |files| && !Empty(files[i]) && !Empty(files[k])
    ensures exists answers :: FailsCleanlyAt(layout, map[], files, answers, k)
                           && StoreAfterFailure(layout, map[], files, answers, k, Ignores, map[]) != map[]
  {
    var left := OwnWritesFailCleanly(layout, map[], files, k);
    var answers := OwnWrites(files, k, left);
    IgnoredStays(layout, map[], files, answers, k);
    SomethingWritten(layout, files, k, left, k, i);
  }

  lemma {:induction false} SomethingWritten(layout: Layout, files: seq<EtlFile>, k: nat, left: Doc, n: nat, i: nat)
    requires i < n <= k < |files| && !Empty(files[i])
    ensures StoreAfter(layout, map[], files, OwnWrites(files, k, left), n) != map[]
  {
    hide Put;
    if Empty(files[n - 1]) {
      SomethingWritten(layout, files, k, left, n - 1, i);
    } else {
      var key :| key in files[n - 1].flat;
      var before := StoreAfter(layout, map[], files, OwnWrites(files, k, left), n - 1);
      RowAfterPut(layout, before, IdOf(files[n - 1]), files[n - 1].flat, Row(IdOf(files[n - 1]), key));
    }
  }
}

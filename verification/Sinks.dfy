/** A sink as stage_sync uses it: files written into environments, single keys deleted from them. */
module Sinks {
  import opened Options
  import opened Ledger

  datatype FileId = FileId(env: string, path: string)

  type Doc = map<Key, string>

  datatype DeleteCall = DeleteCall(env: string, keys: seq<Key>)

  /** What a call of delete_keys does: deletes, or raises after deleting some of the keys. */
  datatype DeleteAnswer = Deleted(count: nat) | DeleteRaises(message: string, gone: set<Key>)

  /** What a call of write does: writes keys, or raises, whatever it has written by then. */
  datatype WriteAnswer = Written(doc: Doc) | WriteRaises(message: string, left: Doc)

  function KeySet(keys: seq<Key>): set<Key> {
    set k | k in keys
  }

  /** One key as a sink keeps it, with the file that wrote it last. */
  datatype Row = Row(owner: FileId, key: Key)

  type Store = map<Row, string>

  /**
   How a sink stores what is written. PerFile: each file is an object of its own, replaced as a whole by
   every write (a document, a file, an S3 object). PerKey: each key of a key space is one entry, which a
   write takes over from whatever file wrote it before (MongoSink under STRATEGY_KEY_VALUE, which says so in
   `_vt_file`; Redis, ZooKeeper and Vercel, where the owner shows in the value only).
   */
  datatype Layout = PerFile | PerKey(spaceOf: string -> string)

  predicate Shares(layout: Layout, env: string, env': string) {
    match layout
    case PerFile => env == env'
    case PerKey(spaceOf) => spaceOf(env) == spaceOf(env')
  }

  function Rows(f: FileId, doc: Doc): Store {
    map r | r in (set k | k in doc :: Row(f, k)) :: doc[r.key]
  }

  function Outside(store: Store, f: FileId): Store {
    map r | r in store && r.owner != f :: store[r]
  }

  /** snapshot_file_data: the keys the file holds. */
  function DocOf(store: Store, f: FileId): Doc {
    map k | k in (set r | r in store && r.owner == f :: r.key) :: store[Row(f, k)]
  }

  /** restore_file_data: what the file holds is deleted, and *doc* is put back. */
  function Reset(store: Store, f: FileId, doc: Doc): Store {
    Outside(store, f) + Rows(f, doc)
  }

  function RemoveKeys(layout: Layout, store: Store, env: string, keys: set<Key>): Store {
    map r | r in store && !(r.key in keys && Shares(layout, r.owner.env, env)) :: store[r]
  }

  /** A write that leaves *doc* in the file. */
  function Put(layout: Layout, store: Store, f: FileId, doc: Doc): Store {
    match layout
    case PerFile => Reset(store, f, doc)
    case PerKey(_) => RemoveKeys(layout, store, f.env, doc.Keys) + Rows(f, doc)
  }

  lemma RowOf(f: FileId, doc: Doc, r: Row)
    ensures Get(Rows(f, doc), r) == if r.owner == f then Get(doc, r.key) else None
  {
    assert r.owner == f && r.key in doc ==> r == Row(f, r.key);
  }

  lemma DocAt(store: Store, f: FileId, key: Key)
    ensures Get(DocOf(store, f), key) == Get(store, Row(f, key))
  {
    assert Row(f, key) in store ==> Row(f, key).key == key;
  }

  lemma RowAfterReset(store: Store, f: FileId, doc: Doc, r: Row)
    ensures Get(Reset(store, f, doc), r) == if r.owner == f then Get(doc, r.key) else Get(store, r)
  {
    RowOf(f, doc, r);
  }

  lemma RowAfterPut(layout: Layout, store: Store, f: FileId, doc: Doc, r: Row)
    ensures Get(Put(layout, store, f, doc), r) ==
            if r.owner == f && (layout.PerFile? || r.key in doc) then Get(doc, r.key)
            else if layout.PerKey? && r.key in doc && Shares(layout, r.owner.env, f.env) then None
            else Get(store, r)
  {
    RowOf(f, doc, r);
    RowAfterReset(store, f, doc, r);
  }

  /** A delete reaches the keys of the environment and, with an entry per key, of those in the same place; no others. */
  lemma RowAfterRemove(layout: Layout, store: Store, env: string, keys: set<Key>, r: Row)
    ensures Get(RemoveKeys(layout, store, env, keys), r) ==
            if r.key in keys
               && (r.owner.env == env || (layout.PerKey? && layout.spaceOf(r.owner.env) == layout.spaceOf(env)))
            then None else Get(store, r)
  {
  }

  /** Two stores that hold the same are equal. */
  lemma SameStore(a: Store, b: Store)
    requires forall r :: Get(a, r) == Get(b, r)
    ensures a == b
  {
    forall r ensures r in a <==> r in b {
      assert Get(a, r) == Get(b, r);
    }
    forall r | r in a ensures a[r] == b[r] {
      assert Get(a, r) == Get(b, r);
    }
  }

  lemma RemovingNothing(layout: Layout, store: Store, env: string)
    ensures RemoveKeys(layout, store, env, {}) == store
  {
  }

  /**
   What a sink does when one of its writes is undone: bring the snapshot back (MongoSink), or nothing
   (BaseSink's delete_file_data, which every other sink inherits).
   */
  datatype Undoing = Restores | Ignores

  class Sink {
    const cls: string
    const layout: Layout
    const undoing: Undoing
    var store: Store
    var strictReads: bool
    /** Every call of delete_keys so far. */
    var deletes: seq<DeleteCall>

    constructor (cls: string, layout: Layout, undoing: Undoing, store: Store)
      ensures this.cls == cls && this.layout == layout && this.undoing == undoing && this.store == store
      ensures !strictReads && deletes == []
    {
      this.cls, this.layout, this.undoing := cls, layout, undoing;
      this.store, this.strictReads, this.deletes := store, false, [];
    }

    method Write(f: FileId, answer: WriteAnswer) returns (ok: bool)
      modifies this`store
      ensures ok <==> answer.Written?
      ensures store == Put(layout, old(store), f, if answer.Written? then answer.doc else answer.left)
    {
      store := Put(layout, store, f, if answer.Written? then answer.doc else answer.left);
      ok := answer.Written?;
    }

    method Snapshot(f: FileId) returns (doc: Doc)
      ensures doc == DocOf(store, f)
    {
      doc := DocOf(store, f);
    }

    /**
     Undoing one write: restore_file_data where the sink has it. It deletes first and inserts then, so one
     that fails can leave anything of the file behind: *stuck* says what.
     */
    method Undo(f: FileId, snapshot: Doc, stuck: map<FileId, Doc>)
      modifies this`store
      ensures store == Undone(old(store), undoing, f, snapshot, stuck)
    {
      match undoing
      case Restores => store := Reset(store, f, if f in stuck then stuck[f] else snapshot);
      case Ignores =>
    }

    method DeleteKeys(env: string, keys: seq<Key>, answer: DeleteAnswer) returns (ok: bool)
      modifies this`store, this`deletes
      ensures ok <==> answer.Deleted?
      ensures deletes == old(deletes) + [DeleteCall(env, keys)]
      ensures store == RemoveKeys(layout, old(store), env, if ok then KeySet(keys) else KeySet(keys) * answer.gone)
    {
      ok := answer.Deleted?;
      deletes := deletes + [DeleteCall(env, keys)];
      store := RemoveKeys(layout, store, env, if ok then KeySet(keys) else KeySet(keys) * answer.gone);
    }
  }

  function Undone(store: Store, undoing: Undoing, f: FileId, snapshot: Doc, stuck: map<FileId, Doc>): Store {
    match undoing
    case Restores => Reset(store, f, if f in stuck then stuck[f] else snapshot)
    case Ignores => store
  }
}

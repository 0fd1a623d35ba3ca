/**
 manager.SchemaRegistryManager: threads that clone a tenant's schema repository once, and invalidations
 that throw clones away. Every critical section and every directory operation is one step of a thread.
 */
module CloneRegistry {
  import opened Options

  datatype Call = GetOrClone(tenant: string, slug: string) | Invalidate(tenant: string)

  /**
   Where a call is: the losing thread and the invalidation have directories left to remove; a call that
   is leaving has given up the lock and holds only the path it is about to return.
   */
  datatype Phase =
    | Ready
    | MustClone
    | Cloned(dir: string)
    | Losing(dir: string, winner: string)
    | Leaving(path: string)
    | Returned(path: string)
    | Removing(left: map<string, string>)

  datatype State = State(entries: map<string, string>, disk: set<string>, phases: seq<Phase>)

  function KeyOf(tenant: string, slug: string): string {
    tenant + ":" + slug
  }

  function KeyOfCall(call: Call): string
    requires call.GetOrClone?
  {
    KeyOf(call.tenant, call.slug)
  }

  predicate OfTenant(key: string, tenant: string) {
    tenant + ":" <= key
  }

  function Popped(entries: map<string, string>, tenant: string): map<string, string> {
    map key | key in entries && OfTenant(key, tenant) :: entries[key]
  }

  function Kept(entries: map<string, string>, tenant: string): map<string, string> {
    map key | key in entries && !OfTenant(key, tenant) :: entries[key]
  }

  /** The double check after a clone: a directory is registered only under a key nobody registered meanwhile. */
  function Settled(entries: map<string, string>, key: string, dir: string): map<string, string> {
    if key in entries then entries else entries[key := dir]
  }

  /** The registry's own dictionary; each method is what one hold of its lock does. */
  class Registry {
    var entries: map<string, string>

    constructor ()
      ensures entries == map[]
    {
      entries := map[];
    }

    /** The first to come registers its directory; later ones lose to it. */
    method Settle(key: string, dir: string) returns (path: string, lost: bool)
      modifies this
      ensures lost == (key in old(entries))
      ensures entries == Settled(old(entries), key, dir) && path == entries[key]
    {
      lost := key in entries;
      if lost {
        path := entries[key];
      } else {
        entries := entries[key := dir];
        path := dir;
      }
    }

    /** Takes every key of the tenant out; the directories remain to be removed. */
    method PopTenant(tenant: string) returns (left: map<string, string>)
      modifies this
      ensures left == Popped(old(entries), tenant) && entries == Kept(old(entries), tenant)
    {
      left := map[];
      var todo := entries.Keys;
      ghost var all := entries;
      while todo != {}
        invariant todo <= all.Keys
        invariant left == Popped(map key | key in all.Keys - todo :: all[key], tenant)
        invariant forall key :: key in entries <==> key in all && (key in todo || !OfTenant(key, tenant))
        invariant forall key :: key in entries ==> entries[key] == all[key]
        decreases todo
      {
        var key :| key in todo;
        if OfTenant(key, tenant) {
          left := left[key := entries[key]];
          entries := entries - {key};
        }
        todo := todo - {key};
      }
    }
  }

  // -- Any number of calls side by side -----------------------------------------

  /** A thread's next step; *pick* is the name mkdtemp chooses, or the key whose directory goes next. */
  datatype Move = Move(thread: nat, pick: string)

  predicate Finished(p: Phase) {
    p.Returned? || p == Removing(map[])
  }

  predicate Fits(call: Call, p: Phase) {
    p.Ready? || (call.Invalidate? <==> p.Removing?)
  }

  predicate CanMove(calls: seq<Call>, s: State, m: Move) {
    && |s.phases| == |calls| && m.thread < |calls|
    && Fits(calls[m.thread], s.phases[m.thread])
    && match s.phases[m.thread]
       case MustClone => m.pick !in s.disk
       case Removing(left) => m.pick in left
       case Returned(_) => false
       case _ => true
  }

  function Act(calls: seq<Call>, s: State, m: Move): State
    requires CanMove(calls, s, m)
  {
    var call := calls[m.thread];
    match s.phases[m.thread]
    case Ready =>
      if call.Invalidate? then
        At(s, m.thread, Removing(Popped(s.entries, call.tenant))).(entries := Kept(s.entries, call.tenant))
      else if KeyOfCall(call) in s.entries then At(s, m.thread, Leaving(s.entries[KeyOfCall(call)]))
      else At(s, m.thread, MustClone)
    case MustClone => At(s, m.thread, Cloned(m.pick)).(disk := s.disk + {m.pick})
    case Cloned(dir) =>
      var key := KeyOfCall(call);
      var entries := Settled(s.entries, key, dir);
      At(s, m.thread, if key in s.entries
          then Losing(dir, entries[key]) else Leaving(entries[key])).(entries := entries)
    case Losing(dir, winner) => At(s, m.thread, Leaving(winner)).(disk := s.disk - {dir})
    case Leaving(path) => At(s, m.thread, Returned(path))
    case Removing(left) => At(s, m.thread, Removing(left - {m.pick})).(disk := s.disk - {left[m.pick]})
  }

  function At(s: State, t: nat, p: Phase): State
    requires t < |s.phases|
  {
    s.(phases := s.phases[t := p])
  }

  /** Nothing registered; the shared volume may already hold other processes' directories. */
  function Start(calls: seq<Call>, others: set<string>): State {
    State(map[], others, seq(|calls|, _ => Ready))
  }

  ghost predicate Legal(calls: seq<Call>, s: State, moves: seq<Move>)
    decreases |moves|
  {
    moves == [] || (CanMove(calls, s, moves[0]) && Legal(calls, Act(calls, s, moves[0]), moves[1..]))
  }

  function After(calls: seq<Call>, s: State, moves: seq<Move>): State
    requires Legal(calls, s, moves)
    decreases |moves|
  {
    if moves == [] then s else After(calls, Act(calls, s, moves[0]), moves[1..])
  }

  // -- Every directory has one owner --------------------------------------------

  /** What may own a directory: a key of the registry, an unfinished clone, or a removal still to do. */
  datatype Owner = Registered(key: string) | CloneOf(thread: nat) | RemovalBy(thread: nat, key: string)

  function Owned(calls: seq<Call>, s: State, o: Owner): Option<string> {
    match o
    case Registered(key) => Get(s.entries, key)
    case CloneOf(t) => if t < |s.phases| && s.phases[t].Cloned? then Some(s.phases[t].dir) else None
    case RemovalBy(t, key) =>
      if t < |s.phases| && t < |calls| && s.phases[t].Losing? && calls[t].GetOrClone? && key == KeyOfCall(calls[t])
      then Some(s.phases[t].dir)
      else if t < |s.phases| && s.phases[t].Removing? then Get(s.phases[t].left, key)
      else None
  }

  ghost predicate OneOwnerEach(calls: seq<Call>, s: State) {
    forall o, o' :: Owned(calls, s, o).Some? && Owned(calls, s, o) == Owned(calls, s, o') ==> o == o'
  }

  ghost predicate IsOwned(calls: seq<Call>, s: State, d: string) {
    exists o :: Owned(calls, s, o) == Some(d)
  }

  /** A directory on disk is another process's or has exactly one owner here, and never both. */
  ghost predicate Inv(calls: seq<Call>, others: set<string>, s: State) {
    && |s.phases| == |calls|
    && (forall t :: 0 <= t < |calls| ==> Fits(calls[t], s.phases[t]))
    && others <= s.disk
    && OneOwnerEach(calls, s)
    && forall d :: d in s.disk - others <==> IsOwned(calls, s, d)
  }

  /** How a step hands a directory on: the owner before of what *o* owns after it. */
  function OwnerBefore(calls: seq<Call>, s: State, m: Move, o: Owner): Owner
    requires CanMove(calls, s, m)
  {
    match (s.phases[m.thread], o)
    case (Cloned(dir), Registered(key)) =>
      if key == KeyOfCall(calls[m.thread]) && key !in s.entries then CloneOf(m.thread) else o
    case (Cloned(dir), RemovalBy(t, key)) => if t == m.thread then CloneOf(t) else o
    case (Ready, RemovalBy(t, key)) => if t == m.thread then Registered(key) else o
    case _ => o
  }

  function OwnerAfter(calls: seq<Call>, s: State, m: Move, o: Owner): Owner
    requires CanMove(calls, s, m)
  {
    match (s.phases[m.thread], o)
    case (Cloned(dir), CloneOf(t)) =>
      if t != m.thread then o
      else
        var key := KeyOfCall(calls[t]);
        if key in s.entries then RemovalBy(t, key) else Registered(key)
    case (Ready, Registered(key)) =>
      if calls[m.thread].Invalidate? && OfTenant(key, calls[m.thread].tenant) then RemovalBy(m.thread, key) else o
    case _ => o
  }

  predicate Made(s: State, m: Move, o: Owner)
    requires m.thread < |s.phases|
  {
    s.phases[m.thread].MustClone? && o == CloneOf(m.thread)
  }

  predicate Gone(s: State, m: Move, o: Owner)
    requires m.thread < |s.phases|
  {
    match s.phases[m.thread]
    case Losing(_, _) => o.RemovalBy? && o.thread == m.thread
    case Removing(_) => o == RemovalBy(m.thread, m.pick)
    case _ => false
  }

  /** What is owned after a step was owned before it by its previous owner, or was made just now. */
  lemma OwnedBefore(calls: seq<Call>, s: State, m: Move, o: Owner)
    requires CanMove(calls, s, m) && Owned(calls, Act(calls, s, m), o).Some?
    ensures Made(s, m, o) ==> Owned(calls, Act(calls, s, m), o) == Some(m.pick)
    ensures !Made(s, m, o) ==> Owned(calls, s, OwnerBefore(calls, s, m, o)) == Owned(calls, Act(calls, s, m), o)
    ensures !Made(s, m, o) ==> !Gone(s, m, OwnerBefore(calls, s, m, o))
    ensures !Made(s, m, o) ==> OwnerAfter(calls, s, m, OwnerBefore(calls, s, m, o)) == o
  {
  }

  /** What was owned before a step is owned after it by its next owner, unless it is gone. */
  lemma OwnedAfter(calls: seq<Call>, s: State, m: Move, o: Owner)
    requires CanMove(calls, s, m) && Owned(calls, s, o).Some? && !Gone(s, m, o)
    ensures Owned(calls, Act(calls, s, m), OwnerAfter(calls, s, m, o)) == Owned(calls, s, o)
  {
  }

  lemma DiskAfter(calls: seq<Call>, s: State, m: Move)
    requires CanMove(calls, s, m)
    ensures var s' := Act(calls, s, m);
            match s.phases[m.thread]
            case MustClone => s'.disk == s.disk + {m.pick} && m.pick !in s.disk
            case Losing(dir, _) => exists o ::
                Gone(s, m, o) && Owned(calls, s, o) == Some(dir) && s'.disk == s.disk - {dir}
            case Removing(left) => Owned(calls, s, RemovalBy(m.thread, m.pick)) == Some(left[m.pick])
                && s'.disk == s.disk - {left[m.pick]}
            case _ => s'.disk == s.disk
    ensures forall o :: Gone(s, m, o) && Owned(calls, s, o).Some? ==> Owned(calls, s, o).value !in Act(calls, s, m).disk
  {
    if s.phases[m.thread].Losing? {
      var o := RemovalBy(m.thread, KeyOfCall(calls[m.thread]));
      assert Gone(s, m, o) && Owned(calls, s, o) == Some(s.phases[m.thread].dir);
    }
  }

  lemma StepKeepsOneOwner(calls: seq<Call>, others: set<string>, s: State, m: Move)
    requires Inv(calls, others, s) && CanMove(calls, s, m)
    ensures OneOwnerEach(calls, Act(calls, s, m))
  {
    hide Act, Owned, OwnerBefore, OwnerAfter, CanMove;
    var s' := Act(calls, s, m);
    forall o, o' | Owned(calls, s', o).Some? && Owned(calls, s', o) == Owned(calls, s', o')
      ensures o == o'
    {
      OwnedBefore(calls, s, m, o);
      OwnedBefore(calls, s, m, o');
      NewIsUnowned(calls, others, s, m, o, o');
      NewIsUnowned(calls, others, s, m, o', o);
    }
  }

  lemma NewIsUnowned(calls: seq<Call>, others: set<string>, s: State, m: Move, o: Owner, o': Owner)
    requires Inv(calls, others, s) && CanMove(calls, s, m)
    ensures Made(s, m, o) ==> Owned(calls, s, OwnerBefore(calls, s, m, o')) != Some(m.pick)
  {
    if Made(s, m, o) && Owned(calls, s, OwnerBefore(calls, s, m, o')) == Some(m.pick) {
      assert IsOwned(calls, s, m.pick);
    }
  }

  lemma StepKeepsDisk(calls: seq<Call>, others: set<string>, s: State, m: Move, d: string)
    requires Inv(calls, others, s) && CanMove(calls, s, m)
    ensures d in Act(calls, s, m).disk - others <==> IsOwned(calls, Act(calls, s, m), d)
  {
    assert m.thread < |s.phases|;
    hide Act, Owned, OwnerBefore, OwnerAfter, CanMove;
    var s' := Act(calls, s, m);
    DiskAfter(calls, s, m);
    if IsOwned(calls, s', d) {
      var o :| Owned(calls, s', o) == Some(d);
      OwnedBefore(calls, s, m, o);
      if !Made(s, m, o) {
        assert IsOwned(calls, s, d);
      }
    }
    if d in s'.disk - others {
      if s.phases[m.thread].MustClone? && d == m.pick {
        MadeIsOwned(calls, s, m);
      } else {
        assert IsOwned(calls, s, d);
        var o :| Owned(calls, s, o) == Some(d);
        if !Gone(s, m, o) {
          OwnedAfter(calls, s, m, o);
          assert IsOwned(calls, s', d);
        }
      }
    }
  }

  lemma MadeIsOwned(calls: seq<Call>, s: State, m: Move)
    requires CanMove(calls, s, m) && s.phases[m.thread].MustClone?
    ensures IsOwned(calls, Act(calls, s, m), m.pick)
  {
    assert Owned(calls, Act(calls, s, m), CloneOf(m.thread)) == Some(m.pick);
  }

  lemma StepKeepsInv(calls: seq<Call>, others: set<string>, s: State, m: Move)
    requires Inv(calls, others, s) && CanMove(calls, s, m)
    ensures Inv(calls, others, Act(calls, s, m))
  {
    StepKeepsOneOwner(calls, others, s, m);
    forall d
      ensures d in Act(calls, s, m).disk - others <==> IsOwned(calls, Act(calls, s, m), d)
    {
      StepKeepsDisk(calls, others, s, m, d);
    }
    DiskAfter(calls, s, m);
    StepKeepsOthers(calls, others, s, m);
  }

  lemma StepKeepsOthers(calls: seq<Call>, others: set<string>, s: State, m: Move)
    requires Inv(calls, others, s) && CanMove(calls, s, m)
    ensures others <= Act(calls, s, m).disk
  {
    DiskAfter(calls, s, m);
    hide Act;
    match s.phases[m.thread]
    case Losing(dir, _) => assert IsOwned(calls, s, dir);
    case Removing(left) => assert IsOwned(calls, s, left[m.pick]);
    case _ =>
  }

  // -- Whole runs ---------------------------------------------------------------

  lemma StartIsGood(calls: seq<Call>, others: set<string>)
    ensures Inv(calls, others, Start(calls, others))
  {
    forall d
      ensures !IsOwned(calls, Start(calls, others), d)
    {
    }
  }

  /** At every moment each directory is another process's, or has exactly one owner here. */
  lemma {:induction false} RunKeepsInv(calls: seq<Call>, others: set<string>, s: State, moves: seq<Move>)
    requires Inv(calls, others, s) && Legal(calls, s, moves)
    ensures Inv(calls, others, After(calls, s, moves))
    decreases |moves|
  {
    if moves != [] {
      StepKeepsInv(calls, others, s, moves[0]);
      RunKeepsInv(calls, others, Act(calls, s, moves[0]), moves[1..]);
    }
  }

  ghost predicate Quiet(s: State) {
    forall t :: 0 <= t < |s.phases| ==> Finished(s.phases[t])
  }

  /** Once every call is over, what is left on disk is what is registered, each clone under one key. */
  lemma QuietDiskIsRegistered(calls: seq<Call>, others: set<string>, moves: seq<Move>)
    requires Legal(calls, Start(calls, others), moves) && Quiet(After(calls, Start(calls, others), moves))
    ensures var s := After(calls, Start(calls, others), moves);
            && s.disk == others + s.entries.Values && others !! s.entries.Values
            && forall k, k' :: k in s.entries && k' in s.entries && s.entries[k] == s.entries[k'] ==> k == k'
  {
    var s := After(calls, Start(calls, others), moves);
    StartIsGood(calls, others);
    RunKeepsInv(calls, others, Start(calls, others), moves);
    hide After;
    forall d
      ensures d in s.disk - others <==> d in s.entries.Values
    {
      if d in s.entries.Values {
        var k :| k in s.entries && s.entries[k] == d;
        assert Owned(calls, s, Registered(k)) == Some(d);
      }
      if IsOwned(calls, s, d) {
        var o :| Owned(calls, s, o) == Some(d);
        assert o.Registered?;
      }
    }
    forall k, k' | k in s.entries && k' in s.entries && s.entries[k] == s.entries[k']
      ensures k == k'
    {
      assert Owned(calls, s, Registered(k)) == Owned(calls, s, Registered(k'));
    }
  }

  // -- What a call returns ------------------------------------------------------

  ghost predicate OnceRegistered(calls: seq<Call>, s: State, moves: seq<Move>, key: string, path: string)
    requires Legal(calls, s, moves)
    decreases |moves|
  {
    || Get(s.entries, key) == Some(path)
    || (moves != [] && OnceRegistered(calls, Act(calls, s, moves[0]), moves[1..], key, path))
  }

  /** The path a call will return, once that is settled. */
  function PathOf(p: Phase): Option<string> {
    match p
    case Losing(_, winner) => Some(winner)
    case Leaving(path) => Some(path)
    case Returned(path) => Some(path)
    case _ => None
  }

  lemma {:induction false} LoserReturnsWinner(calls: seq<Call>, s: State, moves: seq<Move>, t: nat)
    requires |s.phases| == |calls| && t < |calls| && Legal(calls, s, moves)
    requires PathOf(s.phases[t]).Some?
    ensures |After(calls, s, moves).phases| == |calls|
    ensures PathOf(After(calls, s, moves).phases[t]) == PathOf(s.phases[t])
    decreases |moves|
  {
    if moves != [] {
      LoserReturnsWinner(calls, Act(calls, s, moves[0]), moves[1..], t);
    }
  }

  lemma {:induction false} PhasesStay(calls: seq<Call>, s: State, moves: seq<Move>)
    requires |s.phases| == |calls| && Legal(calls, s, moves)
    ensures |After(calls, s, moves).phases| == |calls|
    ensures forall t :: 0 <= t < |calls| && After(calls, s, moves).phases[t].Ready? ==> s.phases[t].Ready?
    decreases |moves|
  {
    if moves != [] {
      PhasesStay(calls, Act(calls, s, moves[0]), moves[1..]);
    }
  }

  /**
   Whatever runs beside it, a finished get_or_clone returns a path that was registered under its own key
   while it ran: its own clone's, or the one that was there first.
   */
  lemma {:induction false} ReturnedPathWasRegistered(calls: seq<Call>, s: State, moves: seq<Move>, t: nat)
    requires |s.phases| == |calls| && t < |calls| && Legal(calls, s, moves)
    requires calls[t].GetOrClone? && (s.phases[t].Ready? || s.phases[t].MustClone? || s.phases[t].Cloned?)
    ensures |After(calls, s, moves).phases| == |calls|
    ensures var p := PathOf(After(calls, s, moves).phases[t]);
            p.Some? ==> OnceRegistered(calls, s, moves, KeyOfCall(calls[t]), p.value)
    decreases |moves|
  {
    PhasesStay(calls, s, moves);
    if moves != [] {
      var s' := Act(calls, s, moves[0]);
      if PathOf(s'.phases[t]).Some? {
        LoserReturnsWinner(calls, s', moves[1..], t);
      } else {
        ReturnedPathWasRegistered(calls, s', moves[1..], t);
      }
    }
  }

  /** No invalidation that reaches the key starts between *s* and *s'*. */
  ghost predicate NoneInvalidates(calls: seq<Call>, s: State, s': State, key: string)
    requires |s.phases| == |calls| == |s'.phases|
  {
    forall t :: 0 <= t < |calls| && calls[t].Invalidate? && OfTenant(key, calls[t].tenant) && s.phases[t].Ready?
                ==> s'.phases[t].Ready?
  }

  lemma {:induction false} RegisteredStays(calls: seq<Call>, s: State, moves: seq<Move>, key: string)
    requires |s.phases| == |calls| && Legal(calls, s, moves) && key in s.entries
    requires |After(calls, s, moves).phases| == |calls|
    requires NoneInvalidates(calls, s, After(calls, s, moves), key)
    ensures Get(After(calls, s, moves).entries, key) == Some(s.entries[key])
    decreases |moves|
  {
    if moves != [] {
      PhasesStay(calls, Act(calls, s, moves[0]), moves[1..]);
      RegisteredStays(calls, Act(calls, s, moves[0]), moves[1..], key);
    }
  }

  /** The call has its path from the registry, without a clone of its own. */
  predicate Reuses(p: Phase, path: string) {
    p == Leaving(path) || p == Returned(path)
  }

  /**
   A clone is made once: while one is registered under its key and none invalidates it, a call that starts
   gets that one's path and makes none itself.
   */
  lemma {:induction false} RegisteredIsReused(calls: seq<Call>, s: State, moves: seq<Move>, t: nat, path: string)
    requires |s.phases| == |calls| && t < |calls| && calls[t].GetOrClone? && Legal(calls, s, moves)
    requires Get(s.entries, KeyOfCall(calls[t])) == Some(path)
    requires |After(calls, s, moves).phases| == |calls|
    requires NoneInvalidates(calls, s, After(calls, s, moves), KeyOfCall(calls[t]))
    requires s.phases[t].Ready? || Reuses(s.phases[t], path)
    ensures After(calls, s, moves).phases[t].Ready? || Reuses(After(calls, s, moves).phases[t], path)
    decreases |moves|
  {
    if moves != [] {
      var s' := Act(calls, s, moves[0]);
      PhasesStay(calls, s', moves[1..]);
      RegisteredIsReused(calls, s', moves[1..], t, path);
    }
  }

  /** An invalidation forgets all clones of its tenant at once, and no others. */
  lemma InvalidationForgets(calls: seq<Call>, s: State, m: Move)
    requires CanMove(calls, s, m) && s.phases[m.thread].Ready? && calls[m.thread].Invalidate?
    ensures forall key :: Get(Act(calls, s, m).entries, key) ==
                          if calls[m.thread].tenant + ":" <= key then None else Get(s.entries, key)
  {
  }

  /** And unless an invalidation reaching the key started meanwhile, that path is registered and on disk now. */
  lemma {:induction false} ReturnedPathIsThere(calls: seq<Call>, others: set<string>, s: State, moves: seq<Move>,
                                               t: nat)
    requires Inv(calls, others, s) && t < |calls| && Legal(calls, s, moves)
    requires calls[t].GetOrClone? && (s.phases[t].Ready? || s.phases[t].MustClone? || s.phases[t].Cloned?)
    requires |After(calls, s, moves).phases| == |calls| && PathOf(After(calls, s, moves).phases[t]).Some?
    requires NoneInvalidates(calls, s, After(calls, s, moves), KeyOfCall(calls[t]))
    ensures var path := PathOf(After(calls, s, moves).phases[t]).value;
            && Get(After(calls, s, moves).entries, KeyOfCall(calls[t])) == Some(path)
            && path in After(calls, s, moves).disk - others
  {
    var key, end := KeyOfCall(calls[t]), After(calls, s, moves);
    ReturnedPathWasRegistered(calls, s, moves, t);
    OnceThenStill(calls, s, moves, key, PathOf(end.phases[t]).value);
    RunKeepsInv(calls, others, s, moves);
    assert Owned(calls, end, Registered(key)) == Some(PathOf(end.phases[t]).value);
    assert IsOwned(calls, end, PathOf(end.phases[t]).value);
  }

  lemma {:induction false} OnceThenStill(calls: seq<Call>, s: State, moves: seq<Move>, key: string, path: string)
    requires |s.phases| == |calls| && Legal(calls, s, moves)
    requires |After(calls, s, moves).phases| == |calls|
    requires NoneInvalidates(calls, s, After(calls, s, moves), key)
    requires OnceRegistered(calls, s, moves, key, path)
    ensures Get(After(calls, s, moves).entries, key) == Some(path)
    decreases |moves|
  {
    if Get(s.entries, key) == Some(path) {
      RegisteredStays(calls, s, moves, key);
    } else {
      PhasesStay(calls, Act(calls, s, moves[0]), moves[1..]);
      OnceThenStill(calls, Act(calls, s, moves[0]), moves[1..], key, path);
    }
  }

  /**
   Which clones an invalidation throws away. The prefix test looks for a colon anywhere: it also reaches
   tenants whose name goes on after the invalidated one and a colon, and slugs that contain one.
   */
  lemma InvalidationReachesExactly(tenant: string, slug: string, invalidated: string)
    ensures OfTenant(KeyOf(tenant, slug), invalidated)
       <==> || tenant == invalidated
            || invalidated + ":" <= tenant
            || (tenant + ":" <= invalidated && invalidated[|tenant| + 1..] + ":" <= slug)
  {
    var key, prefix := KeyOf(tenant, slug), invalidated + ":";
    if |invalidated| < |tenant| {
      assert key[..|prefix|] == tenant[..|prefix|];
    } else if |invalidated| == |tenant| {
      assert key[..|prefix|] == tenant + ":";
      assert prefix[..|tenant|] == invalidated && (tenant + ":")[..|tenant|] == tenant;
    } else {
      var rest := invalidated[|tenant| + 1..] + ":";
      assert prefix == invalidated[..|tenant| + 1] + rest;
      assert key == (tenant + ":") + slug;
      if prefix <= key {
        assert key[..|tenant| + 1] == prefix[..|tenant| + 1];
        assert slug == key[|tenant| + 1..] && rest == prefix[|tenant| + 1..];
      }
    }
  }

  // -- Runs end -----------------------------------------------------------------

  function Weight(call: Call, p: Phase): nat {
    match p
    case Ready => if call.GetOrClone? then 6 else 1
    case MustClone => 5
    case Cloned(_) => 4
    case Losing(_, _) => 2
    case Leaving(_) => 1
    case Returned(_) => 0
    case Removing(left) => |left|
  }

  function Weights(calls: seq<Call>, phases: seq<Phase>): nat
    requires |phases| == |calls|
  {
    if calls == [] then 0 else Weight(calls[0], phases[0]) + Weights(calls[1..], phases[1..])
  }

  lemma {:induction false} WeightsAfter(calls: seq<Call>, phases: seq<Phase>, t: nat, p: Phase)
    requires |phases| == |calls| && t < |calls|
    ensures Weights(calls, phases[t := p]) == Weights(calls, phases) - Weight(calls[t], phases[t]) + Weight(calls[t], p)
  {
    if t > 0 {
      assert phases[t := p][1..] == phases[1..][t - 1 := p];
      WeightsAfter(calls[1..], phases[1..], t - 1, p);
    }
  }

  /** Registered clones count too: an invalidation turns each of them into one removal. */
  function Left(calls: seq<Call>, s: State): nat
    requires |s.phases| == |calls|
  {
    Weights(calls, s.phases) + |s.entries|
  }

  lemma StepIsProgress(calls: seq<Call>, s: State, m: Move)
    requires CanMove(calls, s, m)
    ensures Left(calls, Act(calls, s, m)) < Left(calls, s)
  {
    var s' := Act(calls, s, m);
    PhaseAfter(calls, s, m);
    WeightsAfter(calls, s.phases, m.thread, s'.phases[m.thread]);
    WeightMoves(calls, s, m);
    hide Act, CanMove, Weights;
  }

  lemma PhaseAfter(calls: seq<Call>, s: State, m: Move)
    requires CanMove(calls, s, m)
    ensures |Act(calls, s, m).phases| == |calls|
    ensures Act(calls, s, m).phases == s.phases[m.thread := Act(calls, s, m).phases[m.thread]]
  {
  }

  lemma WeightMoves(calls: seq<Call>, s: State, m: Move)
    requires CanMove(calls, s, m)
    ensures |Act(calls, s, m).phases| == |calls|
    ensures var p, s' := calls[m.thread], Act(calls, s, m);
            Weight(p, s'.phases[m.thread]) + |s'.entries| < Weight(p, s.phases[m.thread]) + |s.entries|
  {
    var call, s' := calls[m.thread], Act(calls, s, m);
    match s.phases[m.thread]
    case Ready =>
      if call.Invalidate? {
        PoppedAndKept(s.entries, call.tenant);
      }
    case Cloned(dir) =>
      if KeyOfCall(call) !in s.entries {
        assert s'.entries.Keys == s.entries.Keys + {KeyOfCall(call)};
      }
    case Removing(left) =>
      assert (left - {m.pick}).Keys == left.Keys - {m.pick};
    case _ =>
  }

  lemma PoppedAndKept(entries: map<string, string>, tenant: string)
    ensures |Popped(entries, tenant)| + |Kept(entries, tenant)| == |entries|
  {
    var popped, kept := Popped(entries, tenant), Kept(entries, tenant);
    assert entries.Keys == popped.Keys + kept.Keys && popped.Keys !! kept.Keys;
  }

  lemma {:induction false} RunIsBounded(calls: seq<Call>, s: State, moves: seq<Move>)
    requires |s.phases| == |calls| && Legal(calls, s, moves)
    ensures |moves| <= Left(calls, s)
    decreases |moves|
  {
    if moves != [] {
      StepIsProgress(calls, s, moves[0]);
      RunIsBounded(calls, Act(calls, s, moves[0]), moves[1..]);
    }
  }

  /** Nobody waits for anybody: a call that is not over can always go on, so a run that cannot is quiet. */
  lemma UnfinishedCanMove(calls: seq<Call>, others: set<string>, s: State, t: nat)
    requires Inv(calls, others, s) && t < |calls| && !Finished(s.phases[t])
    ensures exists pick :: CanMove(calls, s, Move(t, pick))
  {
    var p := s.phases[t];
    if p.MustClone? {
      var bound := LongerThanAll(s.disk);
      assert CanMove(calls, s, Move(t, seq(bound, _ => 'x')));
    } else if p.Removing? {
      assert p.left.Keys != {};
      var key :| key in p.left;
      assert CanMove(calls, s, Move(t, key));
    } else {
      assert CanMove(calls, s, Move(t, ""));
    }
  }

  lemma LongerThanAll(names: set<string>) returns (bound: nat)
    ensures forall name :: name in names ==> |name| < bound
  {
    bound := 0;
    if names != {} {
      var name :| name in names;
      bound := LongerThanAll(names - {name});
      bound := if bound <= |name| then |name| + 1 else bound;
    }
  }
}

/** When a path that get_or_clone returns can be gone from disk: which sets of calls make it possible. */
module CloneRaces {
  import opened Options
  import opened CloneRegistry

  /** An invalidation among the calls reaches the key. */
  ghost predicate Invalidated(calls: seq<Call>, key: string) {
    exists v :: 0 <= v < |calls| && calls[v].Invalidate? && OfTenant(key, calls[v].tenant)
  }

  // -- Building runs ------------------------------------------------------------

  lemma {:induction false} Go(calls: seq<Call>, s: State, moves: seq<Move>, m: Move) returns (more: seq<Move>)
    requires Legal(calls, s, moves) && CanMove(calls, After(calls, s, moves), m)
    ensures Legal(calls, s, more) && After(calls, s, more) == Act(calls, After(calls, s, moves), m)
    decreases |moves|
  {
    more := moves + [m];
    if moves == [] {
      assert more[1..] == [];
    } else {
      var rest := Go(calls, Act(calls, s, moves[0]), moves[1..], m);
      more := [moves[0]] + rest;
      assert more[1..] == rest;
    }
  }

  lemma FreshName(names: set<string>) returns (name: string)
    ensures name !in names
  {
    var bound := LongerThanAll(names);
    name := seq(bound, _ => 'x');
  }

  /** A call that waits to start, cloning its repository into a new directory up to the double check. */
  lemma Clone(calls: seq<Call>, first: State, moves: seq<Move>, t: nat) returns (more: seq<Move>, dir: string)
    requires Legal(calls, first, moves)
    requires var s := After(calls, first, moves);
             && |s.phases| == |calls| && t < |calls| && calls[t].GetOrClone? && s.phases[t].Ready?
             && KeyOfCall(calls[t]) !in s.entries
    ensures Legal(calls, first, more)
    ensures var s := After(calls, first, moves);
            && dir !in s.disk
            && After(calls, first, more) == s.(phases := s.phases[t := Cloned(dir)], disk := s.disk + {dir})
  {
    var s := After(calls, first, moves);
    more := Go(calls, first, moves, Move(t, ""));
    dir := FreshName(s.disk);
    hide Legal, After;
    assert Act(calls, s, Move(t, "")) == s.(phases := s.phases[t := MustClone]);
    more := Go(calls, first, more, Move(t, dir));
    assert s.phases[t := MustClone][t := Cloned(dir)] == s.phases[t := Cloned(dir)];
  }

  lemma Settles(calls: seq<Call>, first: State, moves: seq<Move>, t: nat) returns (more: seq<Move>)
    requires Legal(calls, first, moves)
    requires var s := After(calls, first, moves);
             |s.phases| == |calls| && t < |calls| && calls[t].GetOrClone? && s.phases[t].Cloned?
    ensures Legal(calls, first, more)
    ensures var s := After(calls, first, moves);
            var key, dir := KeyOfCall(calls[t]), s.phases[t].dir;
            After(calls, first, more) ==
            if key in s.entries then s.(phases := s.phases[t := Losing(dir, s.entries[key])])
            else s.(phases := s.phases[t := Leaving(dir)], entries := s.entries[key := dir])
  {
    more := Go(calls, first, moves, Move(t, ""));
  }

  /** An invalidation that takes the only clone out and removes it. */
  lemma Removes(calls: seq<Call>, first: State, moves: seq<Move>, v: nat, key: string, dir: string)
    returns (more: seq<Move>)
    requires Legal(calls, first, moves)
    requires var s := After(calls, first, moves);
             && |s.phases| == |calls| && v < |calls| && calls[v].Invalidate? && s.phases[v].Ready?
             && OfTenant(key, calls[v].tenant) && s.entries == map[key := dir]
    ensures Legal(calls, first, more)
    ensures var s := After(calls, first, moves);
            After(calls, first, more) == State(map[], s.disk - {dir}, s.phases[v := Removing(map[])])
  {
    var s := After(calls, first, moves);
    more := Go(calls, first, moves, Move(v, ""));
    hide Legal, After;
    assert Popped(s.entries, calls[v].tenant) == map[key := dir] && Kept(s.entries, calls[v].tenant) == map[];
    assert Act(calls, s, Move(v, "")) == State(map[], s.disk, s.phases[v := Removing(map[key := dir])]);
    more := Go(calls, first, more, Move(v, key));
    assert map[key := dir] - {key} == map[];
    assert s.phases[v := Removing(map[key := dir])][v := Removing(map[])] == s.phases[v := Removing(map[])];
  }

  // -- Once a path is returned --------------------------------------------------

  /** In every run, once the call has returned, its path is on disk. */
  ghost predicate StaysOnDisk(calls: seq<Call>, others: set<string>, t: nat)
    requires t < |calls|
  {
    forall moves :: Legal(calls, Start(calls, others), moves) ==>
      var s := After(calls, Start(calls, others), moves);
      |s.phases| == |calls| && (s.phases[t].Returned? ==> s.phases[t].path in s.disk - others)
  }

  /** A call clones and leaves the lock; then an invalidation takes its clone out and removes it. */
  lemma RemovedWhileLeaving(calls: seq<Call>, others: set<string>, t: nat) returns (moves: seq<Move>)
    requires t < |calls| && calls[t].GetOrClone? && Invalidated(calls, KeyOfCall(calls[t]))
    ensures Legal(calls, Start(calls, others), moves)
    ensures var s := After(calls, Start(calls, others), moves);
            |s.phases| == |calls| && s.phases[t].Leaving? && s.phases[t].path !in s.disk
  {
    var first, key := Start(calls, others), KeyOfCall(calls[t]);
    var v :| 0 <= v < |calls| && calls[v].Invalidate? && OfTenant(key, calls[v].tenant);
    assert Legal(calls, first, []) && After(calls, first, []) == first;
    hide Legal, After, Act;
    var dir;
    moves, dir := Clone(calls, first, [], t);
    moves := Settles(calls, first, moves, t);
    moves := Removes(calls, first, moves, v, key, dir);
  }

  /** And then returns the path. */
  lemma ReturnsRemoved(calls: seq<Call>, others: set<string>, t: nat) returns (moves: seq<Move>)
    requires t < |calls| && calls[t].GetOrClone? && Invalidated(calls, KeyOfCall(calls[t]))
    ensures Legal(calls, Start(calls, others), moves)
    ensures var s := After(calls, Start(calls, others), moves);
            |s.phases| == |calls| && s.phases[t].Returned? && s.phases[t].path !in s.disk
  {
    moves := RemovedWhileLeaving(calls, others, t);
    moves := Go(calls, Start(calls, others), moves, Move(t, ""));
  }

  /** A returned path stays on disk exactly when no call invalidates its key, however the calls interleave. */
  lemma StaysOnDiskExactly(calls: seq<Call>, others: set<string>, t: nat)
    requires t < |calls| && calls[t].GetOrClone?
    ensures StaysOnDisk(calls, others, t) <==> !Invalidated(calls, KeyOfCall(calls[t]))
  {
    var first := Start(calls, others);
    if Invalidated(calls, KeyOfCall(calls[t])) {
      var moves := ReturnsRemoved(calls, others, t);
    } else {
      forall moves | Legal(calls, first, moves)
        ensures var s := After(calls, first, moves);
                |s.phases| == |calls| && (s.phases[t].Returned? ==> s.phases[t].path in s.disk - others)
      {
        StartIsGood(calls, others);
        PhasesStay(calls, first, moves);
        if After(calls, first, moves).phases[t].Returned? {
          ReturnedPathIsThere(calls, others, first, moves, t);
        }
      }
    }
  }

  // -- The moment a path is returned --------------------------------------------

  /** In every run, the path is on disk at the step that returns it. */
  ghost predicate ReturnsOnDisk(calls: seq<Call>, others: set<string>, t: nat)
    requires t < |calls|
  {
    forall moves, pick ::
      Legal(calls, Start(calls, others), moves)
      && CanMove(calls, After(calls, Start(calls, others), moves), Move(t, pick)) ==>
      var s := Act(calls, After(calls, Start(calls, others), moves), Move(t, pick));
      |s.phases| == |calls| && (s.phases[t].Returned? ==> s.phases[t].path in s.disk - others)
  }

  /**
   Not even at the moment it is returned need a path be on disk: it is exactly when no call invalidates its
   key. The lock is given up before the path is returned, so one that hit the registry or won the race can
   be late as well as one that lost it.
   */
  lemma ReturnsOnDiskExactly(calls: seq<Call>, others: set<string>, t: nat)
    requires t < |calls| && calls[t].GetOrClone?
    ensures ReturnsOnDisk(calls, others, t) <==> !Invalidated(calls, KeyOfCall(calls[t]))
  {
    var first := Start(calls, others);
    if Invalidated(calls, KeyOfCall(calls[t])) {
      var moves := RemovedWhileLeaving(calls, others, t);
      assert CanMove(calls, After(calls, first, moves), Move(t, ""));
    } else {
      forall moves, pick | Legal(calls, first, moves) && CanMove(calls, After(calls, first, moves), Move(t, pick))
        ensures var s := Act(calls, After(calls, first, moves), Move(t, pick));
                |s.phases| == |calls| && (s.phases[t].Returned? ==> s.phases[t].path in s.disk - others)
      {
        StartIsGood(calls, others);
        PhasesStay(calls, first, moves);
        if PathOf(After(calls, first, moves).phases[t]).Some? {
          ReturnedPathIsThere(calls, others, first, moves, t);
        }
      }
    }
  }
}

/**
 The per-environment locks of a sync (stage_sync.target_locks): the loop that takes them, and the
 protocol many syncs run at once on one lock server.
 */
module TargetLocks {
  import opened Ordering

  /** The part of a lock's name that all locks of one sync share. */
  function LockPrefix(tenant: string, datasource: string): string {
    "vt:sync-lock:" + tenant + ":" + datasource + ":"
  }

  function Prefixed(prefix: string, envs: seq<string>): (names: seq<string>)
    ensures |names| == |envs|
    ensures forall i :: 0 <= i < |envs| ==> names[i] == prefix + envs[i]
  {
    seq(|envs|, i requires 0 <= i < |envs| => prefix + envs[i])
  }

  /** The names of the locks a sync of *envs* takes, in the order it takes them. */
  function LockNames(tenant: string, datasource: string, envs: seq<string>): seq<string> {
    Prefixed(LockPrefix(tenant, datasource), SortedSet(envs))
  }

  /** Whatever the tenant, datasource and environments are called, the names come in one global order. */
  lemma LockNamesSorted(tenant: string, datasource: string, envs: seq<string>)
    ensures StrictlySorted(LockNames(tenant, datasource, envs))
    ensures forall e :: e in envs ==> LockPrefix(tenant, datasource) + e in LockNames(tenant, datasource, envs)
  {
    var prefix, sorted := LockPrefix(tenant, datasource), SortedSet(envs);
    var names := LockNames(tenant, datasource, envs);
    SortedSetCorrect(envs);
    forall i, j | 0 <= i < j < |names| ensures Less(names[i], names[j]) {
      LessPrefix(prefix, sorted[i], sorted[j]);
    }
    forall e | e in envs ensures prefix + e in names {
      var i :| 0 <= i < |sorted| && sorted[i] == e;
      assert names[i] == prefix + e;
    }
  }

  /** The lock of one environment. */
  function LockName(tenant: string, datasource: string, env: string): string {
    "vt:sync-lock:" + tenant + ":" + datasource + ":" + env
  }

  /** A sync takes the locks of the environments it is given, and no others. */
  lemma LocksOfEnvs(tenant: string, datasource: string, envs: seq<string>, n: string)
    ensures n in LockNames(tenant, datasource, envs) <==> exists e :: e in envs && n == LockName(tenant, datasource, e)
  {
    var prefix, sorted := LockPrefix(tenant, datasource), SortedSet(envs);
    SortedSetCorrect(envs);
    LockNamesSorted(tenant, datasource, envs);
    forall e ensures prefix + e == LockName(tenant, datasource, e) {
    }
    if n in LockNames(tenant, datasource, envs) {
      var i :| 0 <= i < |sorted| && n == prefix + sorted[i];
      assert sorted[i] in envs;
    }
  }

  lemma SplitAtColon(a: string, x: string, b: string, y: string)
    requires ':' !in a && ':' !in b && a + ":" + x == b + ":" + y
    ensures a == b && x == y
  {
    var s := a + ":" + x;
    assert forall i :: 0 <= i < |a| ==> s[i] == a[i] && a[i] in a;
    assert forall i :: 0 <= i < |b| ==> s[i] == b[i] && b[i] in b;
    assert s[|a|] == ':' && s[|b|] == ':';
    assert a == s[..|a|] && b == s[..|b|] && x == s[|a| + 1..] && y == s[|b| + 1..];
  }

  /** One lock belongs to one environment of one datasource of one tenant, while their names have no colon. */
  lemma LocksAreApart(tenant: string, datasource: string, env: string,
                      tenant': string, datasource': string, env': string)
    requires ':' !in tenant && ':' !in datasource && ':' !in tenant' && ':' !in datasource'
    ensures LockName(tenant, datasource, env) == LockName(tenant', datasource', env') <==>
            tenant == tenant' && datasource == datasource' && env == env'
  {
    var head := "vt:sync-lock:";
    var a, b := LockName(tenant, datasource, env), LockName(tenant', datasource', env');
    assert a == head + (tenant + ":" + (datasource + ":" + env));
    assert b == head + (tenant' + ":" + (datasource' + ":" + env'));
    assert a[|head|..] == tenant + ":" + (datasource + ":" + env);
    assert b[|head|..] == tenant' + ":" + (datasource' + ":" + env');
    if a == b {
      SplitAtColon(tenant, datasource + ":" + env, tenant', datasource' + ":" + env');
      SplitAtColon(datasource, env, datasource', env');
    }
  }

  lemma NotTakenYet(names: seq<string>, k: nat)
    requires StrictlySorted(names) && k < |names|
    ensures names[k] !in names[..k]
  {
    LessIrreflexive(names[k]);
  }

  // -- One sync on its own ------------------------------------------------------

  /** The lock server (Redis): who holds each lock. */
  class LockServer {
    var holder: map<string, nat>

    constructor ()
      ensures holder == map[]
    {
      holder := map[];
    }

    /** Entering the `with` block. A lock still taken when its wait runs out is TargetBusy: the locks
        taken so far are given back. */
    method Enter(me: nat, tenant: string, datasource: string, envs: seq<string>)
      returns (busy: bool, held: seq<string>)
      modifies this
      ensures busy <==> exists n :: n in LockNames(tenant, datasource, envs) && n in old(holder)
      ensures busy ==> held == [] && holder == old(holder)
      ensures !busy ==> held == LockNames(tenant, datasource, envs)
      ensures !busy ==> holder == old(holder) + (map n | n in held :: me)
    {
      LockNamesSorted(tenant, datasource, envs);
      var names := LockNames(tenant, datasource, envs);
      hide LockNames, StrictlySorted;
      held := [];
      busy := false;
      while |held| < |names| && !busy
        invariant held <= names
        invariant forall n :: n in held ==> n !in old(holder)
        invariant holder.Keys == old(holder).Keys + (set n | n in held)
        invariant forall n :: n in holder ==> holder[n] == if n in held then me else old(holder)[n]
        invariant busy ==> |held| < |names| && names[|held|] in old(holder)
        decreases |names| - |held|, !busy
      {
        var name := names[|held|];
        NotTakenYet(names, |held|);
        assert held == names[..|held|];
        if name in holder {
          busy := true;
        } else {
          holder := holder[name := me];
          held := held + [name];
        }
      }
      if busy {
        Exit(held);
        held := [];
        assert holder == old(holder);
      }
    }

    /** Leaving the block, however it ends: the locks are released in reverse. */
    method Exit(held: seq<string>)
      modifies this
      ensures holder == old(holder) - (set n | n in held)
    {
      var k := |held|;
      while k > 0
        invariant 0 <= k <= |held|
        invariant holder == old(holder) - (set n | n in held[k..])
      {
        k := k - 1;
        assert held[k..] == [held[k]] + held[k + 1..];
        holder := holder - {held[k]};
      }
    }
  }

  // -- Many syncs at once -------------------------------------------------------

  /** Where a sync stands: taking its locks, inside the block, giving its locks back, or over. */
  datatype Phase = Acquiring | Working | Releasing | Over

  /** A sync with the locks it takes in order, holding the first *held* of them. */
  datatype Sync = Sync(names: seq<string>, held: nat, phase: Phase)

  datatype State = State(syncs: seq<Sync>, holder: map<string, nat>)

  datatype Action = Acquire | Enter | Busy | Finish | Release | Exit

  ghost predicate Init(s: State) {
    && s.holder == map[]
    && forall i :: 0 <= i < |s.syncs| ==>
         && s.syncs[i].held == 0
         && s.syncs[i].phase == Acquiring
         && exists tenant, datasource, envs :: s.syncs[i].names == LockNames(tenant, datasource, envs)
  }

  /** The sync's next lock is not its own to take yet. */
  predicate Wants(sync: Sync) {
    sync.phase == Acquiring && sync.held < |sync.names|
  }

  predicate Enabled(s: State, i: nat, a: Action)
    requires i < |s.syncs|
  {
    var me := s.syncs[i];
    match a
    case Acquire => Wants(me) && me.names[me.held] !in s.holder
    case Enter => me.phase == Acquiring && me.held >= |me.names|
    case Busy => Wants(me) && me.names[me.held] in s.holder
    case Finish => me.phase == Working
    case Release => me.phase == Releasing && 0 < me.held <= |me.names|
    case Exit => me.phase == Releasing && me.held == 0
  }

  function Step(s: State, i: nat, a: Action): State
    requires i < |s.syncs| && Enabled(s, i, a)
  {
    var me := s.syncs[i];
    match a
    case Acquire =>
      State(s.syncs[i := me.(held := me.held + 1)], s.holder[me.names[me.held] := i])
    case Enter => s.(syncs := s.syncs[i := me.(phase := Working)])
    case Busy => s.(syncs := s.syncs[i := me.(phase := Releasing)])
    case Finish => s.(syncs := s.syncs[i := me.(phase := Releasing)])
    case Release =>
      State(s.syncs[i := me.(held := me.held - 1)], s.holder - {me.names[me.held - 1]})
    case Exit => s.(syncs := s.syncs[i := me.(phase := Over)])
  }

  ghost predicate Next(s: State, s': State) {
    exists i: nat, a: Action :: i < |s.syncs| && Enabled(s, i, a) && s' == Step(s, i, a)
  }

  ghost predicate StepsTo(run: seq<State>, k: nat)
    requires 0 < k < |run|
  {
    Next(run[k - 1], run[k])
  }

  ghost predicate IsRun(run: seq<State>) {
    && run != []
    && Init(run[0])
    && forall k :: 0 < k < |run| ==> StepsTo(run, k)
  }

  ghost predicate Reachable(s: State) {
    exists run :: run != [] && IsRun(run) && s == run[|run| - 1]
  }

  ghost predicate SyncOk(sync: Sync) {
    && StrictlySorted(sync.names)
    && sync.held <= |sync.names|
    && (sync.phase == Working ==> sync.held == |sync.names|)
    && (sync.phase == Over ==> sync.held == 0)
  }

  /** The locks a sync holds, in the order it took them. */
  function Held(sync: Sync): seq<string> {
    if sync.held <= |sync.names| then sync.names[..sync.held] else sync.names
  }

  /** The server and the syncs agree on who holds what. */
  ghost predicate HoldersAgree(s: State) {
    && (forall i, n :: 0 <= i < |s.syncs| && n in Held(s.syncs[i]) ==> n in s.holder && s.holder[n] == i)
    && (forall n :: n in s.holder ==> s.holder[n] < |s.syncs| && n in Held(s.syncs[s.holder[n]]))
  }

  ghost predicate Agrees(s: State) {
    && (forall i :: 0 <= i < |s.syncs| ==> SyncOk(s.syncs[i]))
    && HoldersAgree(s)
  }

  lemma InitAgrees(s: State)
    requires Init(s)
    ensures Agrees(s)
  {
    forall i | 0 <= i < |s.syncs| ensures SyncOk(s.syncs[i]) {
      var tenant, datasource, envs :| s.syncs[i].names == LockNames(tenant, datasource, envs);
      LockNamesSorted(tenant, datasource, envs);
    }
  }

  lemma Distinct(names: seq<string>, i: nat, j: nat)
    requires StrictlySorted(names) && i < |names| && j < |names| && names[i] == names[j]
    ensures i == j
  {
    LessIrreflexive(names[i]);
  }

  lemma HeldAfterStep(s: State, i: nat, a: Action)
    requires i < |s.syncs| && SyncOk(s.syncs[i]) && Enabled(s, i, a)
    ensures SyncOk(Step(s, i, a).syncs[i])
    ensures a == Acquire ==> Held(Step(s, i, a).syncs[i]) == Held(s.syncs[i]) + [Wanted(s, i)]
    ensures a == Release ==>
              && Held(s.syncs[i]) == Held(Step(s, i, a).syncs[i]) + [s.syncs[i].names[s.syncs[i].held - 1]]
              && s.syncs[i].names[s.syncs[i].held - 1] !in Held(Step(s, i, a).syncs[i])
    ensures a != Acquire && a != Release ==> Held(Step(s, i, a).syncs[i]) == Held(s.syncs[i])
  {
    if a == Release {
      NotTakenYet(s.syncs[i].names, s.syncs[i].held - 1);
    }
  }

  lemma HoldersAgreeAfter(s: State, s': State, i: nat)
    requires HoldersAgree(s) && i < |s.syncs| && |s'.syncs| == |s.syncs|
    requires forall j :: 0 <= j < |s.syncs| && j != i ==> s'.syncs[j] == s.syncs[j]
    requires || (s'.holder == s.holder && Held(s'.syncs[i]) == Held(s.syncs[i]))
             || (exists n :: n !in s.holder && s'.holder == s.holder[n := i]
                           && Held(s'.syncs[i]) == Held(s.syncs[i]) + [n])
             || (exists n :: n !in Held(s'.syncs[i]) && s'.holder == s.holder - {n}
                           && Held(s.syncs[i]) == Held(s'.syncs[i]) + [n])
    ensures HoldersAgree(s')
  {
    forall j, n | 0 <= j < |s'.syncs| && n in Held(s'.syncs[j])
      ensures n in s'.holder && s'.holder[n] == j
    {
      assert n in Held(s.syncs[j]) || n !in s.holder;
    }
    forall n | n in s'.holder
      ensures s'.holder[n] < |s'.syncs| && n in Held(s'.syncs[s'.holder[n]])
    {
      assert n in s.holder ==> n in Held(s.syncs[s.holder[n]]);
    }
  }

  lemma StepAgrees(s: State, i: nat, a: Action)
    requires Agrees(s) && i < |s.syncs| && Enabled(s, i, a)
    ensures Agrees(Step(s, i, a))
  {
    HeldAfterStep(s, i, a);
    HoldersAgreeAfter(s, Step(s, i, a), i);
  }

  lemma {:induction false} RunAgrees(run: seq<State>, k: nat)
    requires IsRun(run) && k < |run|
    ensures Agrees(run[k])
  {
    if k == 0 {
      InitAgrees(run[0]);
    } else {
      RunAgrees(run, k - 1);
      assert StepsTo(run, k);
      var i: nat, a: Action :| i < |run[k - 1].syncs| && Enabled(run[k - 1], i, a) && run[k] == Step(run[k - 1], i, a);
      StepAgrees(run[k - 1], i, a);
    }
  }

  lemma ReachableAgrees(s: State)
    requires Reachable(s)
    ensures Agrees(s)
  {
    hide IsRun, Agrees;
    var run :| run != [] && IsRun(run) && s == run[|run| - 1];
    RunAgrees(run, |run| - 1);
  }

  lemma OneHolder(s: State, i: nat, j: nat, n: string)
    requires HoldersAgree(s) && i < |s.syncs| && j < |s.syncs|
    requires s.syncs[i].held == |s.syncs[i].names| && s.syncs[j].held == |s.syncs[j].names|
    requires n in s.syncs[i].names && n in s.syncs[j].names
    ensures i == j
  {
    assert Held(s.syncs[i]) == s.syncs[i].names && Held(s.syncs[j]) == s.syncs[j].names;
    assert s.holder[n] == i;
  }

  /** Two syncs inside their blocks never share a lock: no environment is written by two syncs at once. */
  lemma MutualExclusion(s: State, i: nat, j: nat, n: string)
    requires Reachable(s) && i < |s.syncs| && j < |s.syncs|
    requires s.syncs[i].phase == Working && s.syncs[j].phase == Working
    requires n in s.syncs[i].names && n in s.syncs[j].names
    ensures i == j
  {
    ReachableAgrees(s);
    OneHolder(s, i, j, n);
  }

  /** However a sync ended, TargetBusy included, it holds nothing afterwards. */
  lemma OverHoldsNothing(s: State, i: nat)
    requires Reachable(s) && i < |s.syncs| && s.syncs[i].phase == Over
    ensures forall n :: n in s.holder ==> s.holder[n] != i
  {
    ReachableAgrees(s);
  }

  // -- No deadlock --------------------------------------------------------------

  /** Sync i waits for a lock that sync j holds. */
  predicate WaitsFor(s: State, i: nat, j: nat) {
    && i < |s.syncs|
    && Wants(s.syncs[i])
    && s.syncs[i].names[s.syncs[i].held] in s.holder
    && s.holder[s.syncs[i].names[s.syncs[i].held]] == j
  }

  function Wanted(s: State, i: nat): string
    requires i < |s.syncs| && Wants(s.syncs[i])
  {
    s.syncs[i].names[s.syncs[i].held]
  }

  /** What a sync waits for comes before whatever its holder waits for. */
  lemma WaitsUpward(s: State, i: nat, j: nat)
    requires Agrees(s) && WaitsFor(s, i, j) && Wants(s.syncs[j])
    ensures Less(Wanted(s, i), Wanted(s, j))
  {
    var n, other := Wanted(s, i), s.syncs[j];
    assert n in Held(other);
    var k :| 0 <= k < other.held && k < |other.names| && other.names[k] == n;
  }

  predicate WaitsAt(s: State, cycle: seq<nat>, k: nat)
    requires 0 < k < |cycle|
  {
    WaitsFor(s, cycle[k - 1], cycle[k])
  }

  ghost predicate CircularWait(s: State, cycle: seq<nat>) {
    && cycle != []
    && (forall k :: 0 < k < |cycle| ==> WaitsAt(s, cycle, k))
    && WaitsFor(s, cycle[|cycle| - 1], cycle[0])
  }

  lemma AllWait(s: State, cycle: seq<nat>, k: nat)
    requires CircularWait(s, cycle) && k < |cycle|
    ensures cycle[k] < |s.syncs| && Wants(s.syncs[cycle[k]])
  {
    if k < |cycle| - 1 {
      assert WaitsAt(s, cycle, k + 1);
    }
  }

  lemma {:induction false} ChainAscends(s: State, cycle: seq<nat>, k: nat)
    requires Agrees(s) && CircularWait(s, cycle) && 0 < k < |cycle|
    requires cycle[0] < |s.syncs| && Wants(s.syncs[cycle[0]])
    requires cycle[k] < |s.syncs| && Wants(s.syncs[cycle[k]])
    ensures Less(Wanted(s, cycle[0]), Wanted(s, cycle[k]))
  {
    AllWait(s, cycle, k - 1);
    assert WaitsAt(s, cycle, k);
    WaitsUpward(s, cycle[k - 1], cycle[k]);
    if k > 1 {
      ChainAscends(s, cycle, k - 1);
      LessTransitive(Wanted(s, cycle[0]), Wanted(s, cycle[k - 1]), Wanted(s, cycle[k]));
    }
  }

  /** No reachable state has a circular wait, whatever the syncs and their environments. */
  lemma NoCircularWait(s: State, cycle: seq<nat>)
    requires Reachable(s)
    ensures !CircularWait(s, cycle)
  {
    if CircularWait(s, cycle) {
      ReachableAgrees(s);
      var last := |cycle| - 1;
      AllWait(s, cycle, 0);
      AllWait(s, cycle, last);
      WaitsUpward(s, cycle[last], cycle[0]);
      if last > 0 {
        ChainAscends(s, cycle, last);
        LessTransitive(Wanted(s, cycle[0]), Wanted(s, cycle[last]), Wanted(s, cycle[0]));
      }
      LessIrreflexive(Wanted(s, cycle[0]));
    }
  }

  /** A sync that wants a lock, and no sync among the first *n* wants a later one. */
  lemma {:induction false} LastWanted(s: State, n: nat, i: nat) returns (m: nat)
    requires n <= |s.syncs| && i < n && Wants(s.syncs[i])
    ensures m < n && Wants(s.syncs[m])
    ensures forall j :: 0 <= j < n && Wants(s.syncs[j]) ==> !Less(Wanted(s, m), Wanted(s, j))
    decreases n
  {
    LessIrreflexive(Wanted(s, i));
    if exists j :: 0 <= j < n - 1 && Wants(s.syncs[j]) {
      var j :| 0 <= j < n - 1 && Wants(s.syncs[j]);
      m := LastWanted(s, n - 1, j);
      if Wants(s.syncs[n - 1]) && Less(Wanted(s, m), Wanted(s, n - 1)) {
        forall j | 0 <= j < n && Wants(s.syncs[j]) ensures !Less(Wanted(s, n - 1), Wanted(s, j)) {
          if Less(Wanted(s, n - 1), Wanted(s, j)) {
            if j == n - 1 {
              LessIrreflexive(Wanted(s, j));
            } else {
              LessTransitive(Wanted(s, m), Wanted(s, n - 1), Wanted(s, j));
            }
          }
        }
        m := n - 1;
      }
    } else {
      m := i;
    }
  }

  ghost predicate AllOver(s: State) {
    forall i :: 0 <= i < |s.syncs| ==> s.syncs[i].phase == Over
  }

  /** While a sync is unfinished, some sync can go on without any wait having to run out. */
  lemma SomeoneCanStep(s: State) returns (i: nat, a: Action)
    requires Reachable(s) && !AllOver(s)
    ensures i < |s.syncs| && a != Busy && Enabled(s, i, a)
  {
    ReachableAgrees(s);
    i :| i < |s.syncs| && s.syncs[i].phase != Over;
    if Wants(s.syncs[i]) {
      var m := LastWanted(s, |s.syncs|, i);
      if Wanted(s, m) in s.holder {
        i := s.holder[Wanted(s, m)];
        if Wants(s.syncs[i]) {
          WaitsUpward(s, m, i);
        }
        assert Wanted(s, m) in Held(s.syncs[i]);
      } else {
        return m, Acquire;
      }
    }
    var me := s.syncs[i];
    a := if me.phase == Acquiring then Enter
         else if me.phase == Working then Finish
         else if me.held == 0 then Exit
         else Release;
  }

  // -- Every run ends -----------------------------------------------------------

  function Remaining(sync: Sync): nat {
    match sync.phase
    case Over => 0
    case Releasing => 1 + sync.held
    case Working => 2 + |sync.names|
    case Acquiring => 3 + |sync.names| + (if sync.held <= |sync.names| then |sync.names| - sync.held else 0)
  }

  function TotalRemaining(syncs: seq<Sync>): nat {
    if syncs == [] then 0 else Remaining(syncs[0]) + TotalRemaining(syncs[1..])
  }

  lemma {:induction false} TotalUpdate(syncs: seq<Sync>, i: nat, sync: Sync)
    requires i < |syncs|
    ensures TotalRemaining(syncs[i := sync]) == TotalRemaining(syncs) - Remaining(syncs[i]) + Remaining(sync)
  {
    if i == 0 {
      assert syncs[0 := sync][1..] == syncs[1..];
    } else {
      TotalUpdate(syncs[1..], i - 1, sync);
      assert syncs[i := sync][1..] == syncs[1..][i - 1 := sync];
    }
  }

  lemma StepUsesUp(s: State, i: nat, a: Action)
    requires Agrees(s) && i < |s.syncs| && Enabled(s, i, a)
    ensures TotalRemaining(Step(s, i, a).syncs) < TotalRemaining(s.syncs)
  {
    TotalUpdate(s.syncs, i, Step(s, i, a).syncs[i]);
    HeldAfterStep(s, i, a);
  }

  /** Each step uses up some of what remains, so a run is at most that long. */
  lemma {:induction false} RunIsBounded(run: seq<State>, k: nat)
    requires IsRun(run) && k < |run|
    ensures k + TotalRemaining(run[k].syncs) <= TotalRemaining(run[0].syncs)
  {
    if k > 0 {
      RunIsBounded(run, k - 1);
      RunAgrees(run, k - 1);
      assert StepsTo(run, k);
      var s := run[k - 1];
      var i: nat, a: Action :| i < |s.syncs| && Enabled(s, i, a) && run[k] == Step(s, i, a);
      StepUsesUp(s, i, a);
    }
  }

  /** A run that cannot go on has finished every sync and left no lock taken. */
  lemma StuckMeansFinished(s: State)
    requires Reachable(s)
    requires forall s' :: !Next(s, s')
    ensures AllOver(s) && s.holder == map[]
  {
    if !AllOver(s) {
      var i, a := SomeoneCanStep(s);
      assert Next(s, Step(s, i, a));
    }
    ReachableAgrees(s);
    assert forall i :: 0 <= i < |s.syncs| ==> Held(s.syncs[i]) == [];
  }
}

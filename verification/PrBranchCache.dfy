/** pr_branch_cache.PRBranchCache: which pull request a branch belongs to, least recently used out first. */
module PrBranchCache {
  import opened Options
  import opened Merging

  /** The ordered dictionary: branches from least to most recently used, with their PR numbers. */
  datatype Lru = Lru(order: seq<string>, prs: map<string, string>)

  datatype Op = Register(branch: string, pr: Option<string>) | Evict(branch: string) | Lookup(branch: string)

  function Without(order: seq<string>, b: string): seq<string> {
    if order == [] then []
    else if order[0] == b then order[1..]
    else [order[0]] + Without(order[1..], b)
  }

  ghost predicate Holds(s: Lru) {
    && (forall i, j :: 0 <= i < j < |s.order| ==> s.order[i] != s.order[j])
    && (forall b :: b in s.order <==> b in s.prs)
  }

  function Touched(s: Lru, b: string): Lru {
    s.(order := Without(s.order, b) + [b])
  }

  /** One call. With no room, a new branch pushes out the least recently used one. */
  function Step(capacity: nat, s: Lru, op: Op): Lru {
    match op
    case Register(b, pr) =>
      if b == "" || pr == None then s
      else if b in s.prs then Lru(Without(s.order, b) + [b], s.prs[b := pr.value])
      else if |s.order| >= capacity && s.order != [] then
        Lru(s.order[1..] + [b], (s.prs - {s.order[0]})[b := pr.value])
      else Lru(s.order + [b], s.prs[b := pr.value])
    case Evict(b) => if b in s.prs then Lru(Without(s.order, b), s.prs - {b}) else s
    case Lookup(b) => if b != "" && b in s.prs then Touched(s, b) else s
  }

  function Run(capacity: nat, s: Lru, ops: seq<Op>): Lru {
    if ops == [] then s else Step(capacity, Run(capacity, s, ops[..|ops| - 1]), ops[|ops| - 1])
  }

  lemma {:induction false} WithoutMembers(order: seq<string>, b: string)
    requires NoRepeats(order)
    ensures NoRepeats(Without(order, b))
    ensures forall x :: x in Without(order, b) <==> x in order && x != b
    ensures |Without(order, b)| == |order| - if b in order then 1 else 0
  {
    if order != [] {
      assert order == [order[0]] + order[1..];
      assert order[0] !in order[1..];
      if order[0] != b {
        WithoutMembers(order[1..], b);
        var r := Without(order[1..], b);
        assert forall i :: 0 <= i < |r| ==> r[i] in r;
        assert Without(order, b) == [order[0]] + r;
      }
    }
  }

  lemma StepHolds(capacity: nat, s: Lru, op: Op)
    requires Holds(s)
    ensures Holds(Step(capacity, s, op))
    ensures |s.order| <= capacity && capacity > 0 ==> |Step(capacity, s, op).order| <= capacity
  {
    var b := op.branch;
    WithoutMembers(s.order, b);
    match op
    case Register(_, pr) =>
      if b != "" && pr.Some? {
        if b in s.prs {
          AppendNew(Without(s.order, b), b);
        } else if |s.order| >= capacity && s.order != [] {
          DropFirst(s.order);
          AppendNew(s.order[1..], b);
        } else {
          AppendNew(s.order, b);
        }
      }
    case Lookup(_) =>
      if b != "" && b in s.prs {
        AppendNew(Without(s.order, b), b);
      }
    case Evict(_) =>
  }

  lemma AppendNew(order: seq<string>, b: string)
    requires NoRepeats(order) && b !in order
    ensures NoRepeats(order + [b]) && forall x :: x in order + [b] <==> x in order || x == b
  {
  }

  lemma DropFirst(order: seq<string>)
    requires NoRepeats(order) && order != []
    ensures NoRepeats(order[1..]) && forall x :: x in order[1..] <==> x in order && x != order[0]
  {
    assert order == [order[0]] + order[1..];
  }

  /** The cache never holds more than its capacity. */
  lemma {:induction false} RunWithinCapacity(capacity: nat, s: Lru, ops: seq<Op>)
    requires Holds(s) && |s.order| <= capacity && capacity > 0
    ensures Holds(Run(capacity, s, ops)) && |Run(capacity, s, ops).order| <= capacity
  {
    if ops != [] {
      RunWithinCapacity(capacity, s, ops[..|ops| - 1]);
      StepHolds(capacity, Run(capacity, s, ops[..|ops| - 1]), ops[|ops| - 1]);
    }
  }

  /** A branch without a name is never cached, whatever the calls. */
  lemma {:induction false} NoBlankBranch(capacity: nat, ops: seq<Op>)
    ensures Holds(Run(capacity, Lru([], map[]), ops)) && "" !in Run(capacity, Lru([], map[]), ops).prs
  {
    if ops != [] {
      NoBlankBranch(capacity, ops[..|ops| - 1]);
      StepHolds(capacity, Run(capacity, Lru([], map[]), ops[..|ops| - 1]), ops[|ops| - 1]);
    }
  }

  class Cache {
    const capacity: nat
    var order: seq<string>
    var prs: map<string, string>

    ghost predicate Valid()
      reads this
    {
      Holds(State()) && |order| <= capacity && capacity > 0
    }

    ghost function State(): Lru
      reads this
    {
      Lru(order, prs)
    }

    constructor (capacity: nat)
      requires capacity > 0
      ensures Valid() && State() == Lru([], map[]) && this.capacity == capacity
    {
      this.capacity, this.order, this.prs := capacity, [], map[];
    }

    method MoveToEnd(b: string)
      requires b in order
      modifies this`order
      ensures order == Without(old(order), b) + [b]
    {
      order := Without(order, b) + [b];
    }

    method RegisterPr(branch: string, pr: Option<string>)
      requires Valid()
      modifies this
      ensures Valid() && State() == Step(capacity, old(State()), Register(branch, pr))
    {
      StepHolds(capacity, State(), Register(branch, pr));
      if branch == "" || pr == None {
        return;
      }
      if branch in prs {
        MoveToEnd(branch);
      } else {
        if |order| >= capacity {
          prs := prs - {order[0]};
          order := order[1..];
        }
        order := order + [branch];
      }
      prs := prs[branch := pr.value];
    }

    method EvictBranch(branch: string)
      requires Valid()
      modifies this
      ensures Valid() && State() == Step(capacity, old(State()), Evict(branch))
    {
      StepHolds(capacity, State(), Evict(branch));
      if branch in prs {
        order, prs := Without(order, branch), prs - {branch};
      }
    }

    method LookupBranch(branch: string) returns (pr: Option<string>)
      requires Valid()
      modifies this
      ensures Valid() && State() == Step(capacity, old(State()), Lookup(branch))
      ensures pr == if branch == "" then None else Get(old(prs), branch)
    {
      StepHolds(capacity, State(), Lookup(branch));
      if branch == "" {
        return None;
      }
      pr := Get(prs, branch);
      if pr.Some? {
        MoveToEnd(branch);
      }
    }
  }

  // -- How long a branch stays --------------------------------------------------

  /** The branches used more recently than b. */
  function After(order: seq<string>, b: string): set<string> {
    if order == [] then {}
    else if order[0] == b then set x | x in order[1..]
    else After(order[1..], b)
  }

  /** The branch a call registers or hits. */
  function Used(s: Lru, op: Op): Option<string> {
    match op
    case Register(b, pr) => if b == "" || pr == None then None else Some(b)
    case Lookup(b) => if b != "" && b in s.prs then Some(b) else None
    case Evict(_) => None
  }

  /** The distinct other branches registered or hit since b's last use. */
  function OthersSince(capacity: nat, s: Lru, ops: seq<Op>, b: string): set<string> {
    if ops == [] then {}
    else
      var init, op := ops[..|ops| - 1], ops[|ops| - 1];
      var before := OthersSince(capacity, s, init, b);
      match Used(Run(capacity, s, init), op)
      case None => before
      case Some(x) => if x == b then {} else before + {x}
  }

  lemma {:induction false} AfterAppend(order: seq<string>, b: string, x: string)
    requires b in order
    ensures After(order + [x], b) == After(order, b) + {x}
  {
    if order[0] == b {
      assert (order + [x])[1..] == order[1..] + [x];
    } else {
      assert (order + [x])[1..] == order[1..] + [x];
      AfterAppend(order[1..], b, x);
    }
  }

  lemma {:induction false} AfterWithout(order: seq<string>, b: string, x: string)
    requires NoRepeats(order) && b in order && x != b
    ensures After(Without(order, x), b) == After(order, b) - {x}
  {
    if order[0] == b {
      WithoutMembers(order[1..], x);
    } else {
      assert order == [order[0]] + order[1..];
      if order[0] == x {
        AfterMembers(order[1..], b);
        assert x !in order[1..];
      } else {
        AfterWithout(order[1..], b, x);
      }
    }
  }

  lemma {:induction false} AfterMembers(order: seq<string>, b: string)
    ensures forall x :: x in After(order, b) ==> x in order
  {
    if order != [] && order[0] != b {
      AfterMembers(order[1..], b);
    }
  }

  /** A call that uses another branch puts that one after b; no other call does. */
  lemma AfterStep(capacity: nat, s: Lru, op: Op, b: string)
    requires Holds(s) && b in s.order && |s.order| <= capacity && op.branch != b
    requires b in Step(capacity, s, op).order
    ensures match Used(s, op)
            case None => After(Step(capacity, s, op).order, b) <= After(s.order, b)
                         && (!op.Evict? ==> Step(capacity, s, op) == s)
            case Some(x) => After(Step(capacity, s, op).order, b) == After(s.order, b) + {x}
  {
    var x := op.branch;
    WithoutMembers(s.order, x);
    if x in s.prs {
      AfterWithout(s.order, b, x);
      AfterAppend(Without(s.order, x), b, x);
    } else if Used(s, op).Some? {
      AfterAppend(s.order, b, x);
      if |s.order| >= capacity {
        assert s.order == [s.order[0]] + s.order[1..];
        assert s.order[0] != b;
        AfterAppend(s.order[1..], b, x);
      }
    }
  }

  lemma {:induction false} SetSize(order: seq<string>)
    requires NoRepeats(order)
    ensures |set x | x in order| == |order|
  {
    if order != [] {
      SetSize(order[1..]);
      assert order == [order[0]] + order[1..];
      assert (set x | x in order) == (set x | x in order[1..]) + {order[0]};
      assert order[0] !in order[1..];
    }
  }

  /** b is pushed out only when as many others as fit were used after it. */
  lemma PushedOut(capacity: nat, s: Lru, op: Op, b: string)
    requires Holds(s) && b in s.order && 0 < |s.order| <= capacity && op.branch != b
    requires b !in Step(capacity, s, op).order
    ensures Used(s, op).Some? && |After(s.order, b) + {Used(s, op).value}| == capacity
  {
    WithoutMembers(s.order, op.branch);
    DropFirst(s.order);
    SetSize(s.order[1..]);
    assert s.order[0] == b;
    AfterMembers(s.order, b);
    assert After(s.order, b) == set x | x in s.order[1..];
    assert op.branch !in After(s.order, b);
  }

  /** After the run nothing evicted b, and there was always room for it. */
  ghost predicate KeepsRoom(capacity: nat, s: Lru, ops: seq<Op>, b: string) {
    && (forall i :: 0 <= i < |ops| ==> ops[i] != Evict(b))
    && forall n :: 0 <= n <= |ops| ==> |OthersSince(capacity, s, ops[..n], b)| < capacity
  }

  /** b's PR number as last registered. */
  function LatestPr(pr: string, ops: seq<Op>, b: string): string {
    if ops == [] then pr
    else
      match ops[|ops| - 1]
      case Register(x, Some(n)) => if x == b then n else LatestPr(pr, ops[..|ops| - 1], b)
      case _ => LatestPr(pr, ops[..|ops| - 1], b)
  }

  lemma {:induction false} AfterLast(order: seq<string>, b: string)
    requires NoRepeats(order) && order != [] && order[|order| - 1] == b
    ensures After(order, b) == {}
  {
    if order[0] == b {
      assert |order| == 1;
    } else {
      AfterLast(order[1..], b);
    }
  }

  lemma UseMakesLast(capacity: nat, s: Lru, op: Op, b: string)
    requires Holds(s) && Used(s, op) == Some(b)
    ensures var r := Step(capacity, s, op).order; r != [] && r[|r| - 1] == b
  {
  }

  lemma StepKeepsPr(capacity: nat, s: Lru, op: Op, b: string)
    requires Holds(s) && b in s.prs && op.branch != b && b in Step(capacity, s, op).prs
    ensures Step(capacity, s, op).prs[b] == s.prs[b]
  {
  }

  /**
   From the moment a branch is registered: as long as it is not evicted and fewer than *capacity* distinct
   other branches were registered or hit since its last use, it is there with its latest PR number.
   */
  lemma {:induction false} RegisteredBranchStays(capacity: nat, s: Lru, ops: seq<Op>, b: string, pr: string)
    requires b != "" && Holds(s) && |s.order| <= capacity && capacity > 0
    requires Get(s.prs, b) == Some(pr) && s.order[|s.order| - 1] == b
    requires KeepsRoom(capacity, s, ops, b)
    ensures var r := Run(capacity, s, ops);
            && Holds(r) && |r.order| <= capacity
            && Get(r.prs, b) == Some(LatestPr(pr, ops, b))
            && b in r.order && After(r.order, b) <= OthersSince(capacity, s, ops, b)
  {
    if ops == [] {
      AfterLast(s.order, b);
    } else {
      var n := |ops| - 1;
      var init, op := ops[..n], ops[n];
      assert forall i :: 0 <= i <= n ==> init[..i] == ops[..i];
      assert ops[..|ops|] == ops && ops[..n] == init;
      RegisteredBranchStays(capacity, s, init, b, pr);
      var before := Run(capacity, s, init);
      StepHolds(capacity, before, op);
      if Used(before, op) == Some(b) {
        UseMakesLast(capacity, before, op, b);
        AfterLast(Step(capacity, before, op).order, b);
      } else if op.branch != b {
        if b !in Step(capacity, before, op).order {
          PushedOut(capacity, before, op, b);
          Cardinal(After(before.order, b) + {Used(before, op).value}, OthersSince(capacity, s, ops, b));
        }
        AfterStep(capacity, before, op, b);
        StepKeepsPr(capacity, before, op, b);
      }
    }
  }

  lemma {:induction false} Cardinal(a: set<string>, b: set<string>)
    requires a <= b
    ensures |a| <= |b|
  {
    assert b == a + (b - a);
  }

  /**
   And exactly then: while nothing is evicted and b is not touched, it is in the cache if and only if
   fewer than *capacity* distinct others were registered or hit since.
   */
  lemma {:induction false} UntouchedBranchStaysExactly(capacity: nat, s: Lru, ops: seq<Op>, b: string)
    requires b != "" && Holds(s) && |s.order| <= capacity && capacity > 0
    requires b in s.prs && s.order[|s.order| - 1] == b
    requires forall i :: 0 <= i < |ops| ==> !ops[i].Evict? && ops[i].branch != b
    ensures var r := Run(capacity, s, ops);
            && Holds(r) && |r.order| <= capacity
            && (b in r.prs <==> |OthersSince(capacity, s, ops, b)| < capacity)
            && (b in r.prs ==> After(r.order, b) == OthersSince(capacity, s, ops, b))
  {
    if ops == [] {
      AfterLast(s.order, b);
    } else {
      var n := |ops| - 1;
      var init, op := ops[..n], ops[n];
      var before := Run(capacity, s, init);
      OneMoreCall(capacity, s, ops, b);
      hide Step, Holds, Run, OthersSince, After, Used;
      assert forall i :: 0 <= i < n ==> init[i] == ops[i];
      UntouchedBranchStaysExactly(capacity, s, init, b);
      StepHolds(capacity, before, op);
      UntouchedStep(capacity, before, op, b, OthersSince(capacity, s, init, b), OthersSince(capacity, s, ops, b));
    }
  }

  lemma OneMoreCall(capacity: nat, s: Lru, ops: seq<Op>, b: string)
    requires ops != [] && ops[|ops| - 1].branch != b
    ensures var init, op := ops[..|ops| - 1], ops[|ops| - 1];
            var before, others := Run(capacity, s, init), OthersSince(capacity, s, init, b);
            && Run(capacity, s, ops) == Step(capacity, before, op)
            && OthersSince(capacity, s, ops, b)
                == if Used(before, op).Some? then others + {Used(before, op).value} else others
  {
  }

  /** One call of such a run. */
  lemma UntouchedStep(capacity: nat, s: Lru, op: Op, b: string, others: set<string>, others': set<string>)
    requires Holds(s) && |s.order| <= capacity && capacity > 0 && !op.Evict? && op.branch != b
    requires b in s.prs <==> |others| < capacity
    requires b in s.prs ==> After(s.order, b) == others
    requires others' == if Used(s, op).Some? then others + {Used(s, op).value} else others
    ensures b in Step(capacity, s, op).prs <==> |others'| < capacity
    ensures b in Step(capacity, s, op).prs ==> After(Step(capacity, s, op).order, b) == others'
  {
    StepHolds(capacity, s, op);
    Cardinal(others, others');
    if b in s.prs {
      if b in Step(capacity, s, op).order {
        AfterStep(capacity, s, op, b);
        AfterIsSmall(Step(capacity, s, op).order, b);
      } else {
        PushedOut(capacity, s, op, b);
      }
    }
  }

  lemma AfterIsSmall(order: seq<string>, b: string)
    requires NoRepeats(order) && b in order
    ensures |After(order, b)| < |order|
  {
    if order[0] == b {
      SetSize(order[1..]);
    } else {
      AfterIsSmall(order[1..], b);
    }
  }
}

/** env_resolver.resolve: the environment a git event goes to. */
module EnvResolver {
  import opened Options
  import opened PrBranchCache

  /** What the event says; in Python an empty string counts like an absent one, except for a PR number. */
  datatype Event = Event(branch: Option<string>, filePath: Option<string>, prNumber: Option<string>,
                         tag: Option<string>)

  datatype Rule = Rule(
    branchMap: map<string, string>, filePathMap: map<string, string>,
    branchAsEnv: bool, prAsEnv: bool, tagAsEnv: bool)

  const FALLBACK: string := "default"
  const TAG_PREFIX: string := "refs/tags/"

  predicate Given(s: Option<string>) {
    s.Some? && s.value != ""
  }

  /** `s.removeprefix(prefix)`. */
  function WithoutPrefix(s: string, prefix: string): string {
    if prefix <= s then s[|prefix|..] else s
  }

  function WithoutTagPrefix(tag: string): string {
    WithoutPrefix(tag, TAG_PREFIX)
  }

  /** The branch and file settings that come before pull requests. */
  function Mapped(ev: Event, rule: Rule): Option<string> {
    if Given(ev.branch) && ev.branch.value in rule.branchMap then Some(rule.branchMap[ev.branch.value])
    else if Given(ev.filePath) && ev.filePath.value in rule.filePathMap then Some(rule.filePathMap[ev.filePath.value])
    else if rule.branchAsEnv && Given(ev.branch) then ev.branch
    else None
  }

  predicate AsksCache(ev: Event, rule: Rule) {
    Mapped(ev, rule) == None && rule.prAsEnv && ev.prNumber == None && Given(ev.branch)
  }

  function PrOf(ev: Event, rule: Rule, cache: Lru): Option<string> {
    if AsksCache(ev, rule) then Get(cache.prs, ev.branch.value) else ev.prNumber
  }

  function EnvOf(ev: Event, rule: Rule, cache: Lru): string {
    match Mapped(ev, rule)
    case Some(env) => env
    case None =>
      if rule.prAsEnv && Given(PrOf(ev, rule, cache)) then "pr-" + PrOf(ev, rule, cache).value
      else if rule.tagAsEnv && Given(ev.tag) then WithoutTagPrefix(ev.tag.value)
      else FALLBACK
  }

  /** The cascade as it runs, asking the cache only when it has to. */
  method Resolve(ev: Event, rule: Rule, cache: Cache) returns (env: string)
    requires cache.Valid()
    modifies cache
    ensures cache.Valid() && env == EnvOf(ev, rule, old(cache.State()))
    ensures cache.State() == if AsksCache(ev, rule)
                             then Step(cache.capacity, old(cache.State()), Lookup(ev.branch.value))
                             else old(cache.State())
  {
    if Given(ev.branch) && ev.branch.value in rule.branchMap {
      return rule.branchMap[ev.branch.value];
    }
    if Given(ev.filePath) && ev.filePath.value in rule.filePathMap {
      return rule.filePathMap[ev.filePath.value];
    }
    if rule.branchAsEnv && Given(ev.branch) {
      return ev.branch.value;
    }
    if rule.prAsEnv {
      var pr := ev.prNumber;
      if pr == None && Given(ev.branch) {
        pr := cache.LookupBranch(ev.branch.value);
      }
      if Given(pr) {
        return "pr-" + pr.value;
      }
    }
    if rule.tagAsEnv && Given(ev.tag) {
      return WithoutTagPrefix(ev.tag.value);
    }
    return FALLBACK;
  }

  /** A setting that applies to the event, with the environment it gives. */
  datatype Setting = Setting(applies: bool, env: string)

  function Text(s: Option<string>): string {
    if s.Some? then s.value else ""
  }

  /** The settings in the order they are looked at, each by the rule, the event and the cache alone. */
  function Settings(ev: Event, rule: Rule, cache: Lru): seq<Setting> {
    var branch, path, tag := Text(ev.branch), Text(ev.filePath), Text(ev.tag);
    var cached := if branch != "" && branch in cache.prs then cache.prs[branch] else "";
    [
      Setting(branch != "" && branch in rule.branchMap,
              if branch in rule.branchMap then rule.branchMap[branch] else ""),
      Setting(path != "" && path in rule.filePathMap,
              if path in rule.filePathMap then rule.filePathMap[path] else ""),
      Setting(branch != "" && rule.branchAsEnv, branch),
      Setting(rule.prAsEnv && Text(ev.prNumber) != "", "pr-" + Text(ev.prNumber)),
      Setting(rule.prAsEnv && ev.prNumber == None && cached != "", "pr-" + cached),
      Setting(tag != "" && rule.tagAsEnv, if "refs/tags/" <= tag then tag[10..] else tag)
    ]
  }

  /**
   Which setting answers, for every event: the first that applies, the branch map before the file map before
   the branch's own name before the event's pull request before the branch's before the tag; and "default"
   when none does.
   */
  lemma FirstSettingAnswers(ev: Event, rule: Rule, cache: Lru)
    ensures forall i :: 0 <= i < 6 && Settings(ev, rule, cache)[i].applies
                        && (forall j :: 0 <= j < i ==> !Settings(ev, rule, cache)[j].applies) ==>
              EnvOf(ev, rule, cache) == Settings(ev, rule, cache)[i].env
    ensures (forall i :: 0 <= i < 6 ==> !Settings(ev, rule, cache)[i].applies) ==> EnvOf(ev, rule, cache) == "default"
  {
    var s := Settings(ev, rule, cache);
    assert |TAG_PREFIX| == 10;
    var env := EnvOf(ev, rule, cache);
    assert !s[0].applies && !s[1].applies && !s[2].applies && !s[3].applies && !s[4].applies && !s[5].applies ==>
        env == FALLBACK;
  }

  /** An event that carries its pull request goes to that one's environment, whatever the cache, branch and tag. */
  lemma PrEventGoesToItsPr(ev: Event, rule: Rule, cache: Lru, pr: string)
    requires LeftToPrs(ev, rule) && ev.prNumber == Some(pr) && pr != ""
    ensures EnvOf(ev, rule, cache) == "pr-" + pr
  {
  }

  /** A push to branch b, with nothing about a pull request in it. */
  predicate PlainPush(ev: Event, b: string) {
    b != "" && ev.branch == Some(b) && ev.prNumber == None
  }

  /** The rule sends pull requests to their own environments, and nothing before that claims the event. */
  predicate LeftToPrs(ev: Event, rule: Rule) {
    && rule.prAsEnv && !rule.branchAsEnv
    && !(Given(ev.branch) && ev.branch.value in rule.branchMap)
    && !(Given(ev.filePath) && ev.filePath.value in rule.filePathMap)
  }

  /**
   Whatever the cache held before: once a branch is registered, a plain push to it goes to the
   environment of its latest pull request while it is not evicted and has room.
   */
  lemma PlainPushFindsItsPr(capacity: nat, s: Lru, ops: seq<Op>, b: string, pr: string, ev: Event, rule: Rule)
    requires Holds(s) && |s.order| <= capacity && capacity > 0
    requires PlainPush(ev, b) && LeftToPrs(ev, rule)
    requires KeepsRoom(capacity, Step(capacity, s, Register(b, Some(pr))), ops, b)
    requires LatestPr(pr, ops, b) != ""
    ensures EnvOf(ev, rule, Run(capacity, Step(capacity, s, Register(b, Some(pr))), ops))
              == "pr-" + LatestPr(pr, ops, b)
  {
    var registered := Step(capacity, s, Register(b, Some(pr)));
    StepHolds(capacity, s, Register(b, Some(pr)));
    UseMakesLast(capacity, s, Register(b, Some(pr)), b);
    RegisteredBranchStays(capacity, registered, ops, b, pr);
  }

  lemma {:induction false} UnregisteredStaysOut(capacity: nat, s: Lru, ops: seq<Op>, b: string)
    requires Holds(s) && b !in s.prs
    requires forall i :: 0 <= i < |ops| && ops[i].Register? ==> ops[i].branch != b
    ensures Holds(Run(capacity, s, ops)) && b !in Run(capacity, s, ops).prs
  {
    if ops != [] {
      var n := |ops| - 1;
      assert forall i :: 0 <= i < n ==> ops[..n][i] == ops[i];
      UnregisteredStaysOut(capacity, s, ops[..n], b);
      StepHolds(capacity, Run(capacity, s, ops[..n]), ops[n]);
    }
  }

  /** Once its pull request is closed, a branch's plain pushes fall back until it is registered again. */
  lemma ClosedPrIsForgotten(capacity: nat, s: Lru, ops: seq<Op>, b: string, ev: Event, rule: Rule)
    requires Holds(s)
    requires PlainPush(ev, b) && LeftToPrs(ev, rule) && ev.tag == None
    requires forall i :: 0 <= i < |ops| && ops[i].Register? ==> ops[i].branch != b
    ensures EnvOf(ev, rule, Run(capacity, Step(capacity, s, Evict(b)), ops)) == FALLBACK
  {
    StepHolds(capacity, s, Evict(b));
    UnregisteredStaysOut(capacity, Step(capacity, s, Evict(b)), ops, b);
  }

  // -- The events that arrive ---------------------------------------------------

  const BRANCH_PREFIX: string := "refs/heads/"

  /** extract_branch: whatever is not a branch keeps its whole name. */
  function BranchOf(ref: string): string {
    WithoutPrefix(ref, BRANCH_PREFIX)
  }

  /** extract_tag. */
  function TagOf(ref: string): Option<string> {
    if TAG_PREFIX <= ref then Some(WithoutTagPrefix(ref)) else None
  }

  /** A pushed ref's event for one of its files. An event without a ref has an empty one. */
  function PushEvent(ref: string, path: string, pr: Option<string>): Event {
    Event(Some(BranchOf(ref)), Some(path), pr, TagOf(ref))
  }

  /** Which refs and paths Git allows; of refs it only matters that none ends in a slash. */
  datatype Names = Names(isRef: string -> bool, isPath: string -> bool)

  ghost predicate GitNames(n: Names) {
    && (forall ref :: n.isRef(ref) ==> ref != "" && ref[|ref| - 1] != '/')
    && (exists path :: n.isPath(path))
  }

  ghost predicate NeverEmpty(n: Names, rule: Rule) {
    forall ref, path, pr, cache :: (ref == "" || n.isRef(ref)) && n.isPath(path) ==>
        EnvOf(PushEvent(ref, path, pr), rule, cache) != ""
  }

  ghost predicate NoBlankBranch(n: Names, rule: Rule) {
    forall ref :: n.isRef(ref) && BranchOf(ref) in rule.branchMap && BranchOf(ref) != "" ==>
        rule.branchMap[BranchOf(ref)] != ""
  }

  ghost predicate NoBlankPath(n: Names, rule: Rule) {
    forall path :: n.isPath(path) && path in rule.filePathMap && path != "" ==> rule.filePathMap[path] != ""
  }

  lemma TagIsNeverBlank(n: Names, ref: string)
    requires GitNames(n) && n.isRef(ref) && TagOf(ref).Some?
    ensures WithoutTagPrefix(TagOf(ref).value) != ""
  {
    var tag := TagOf(ref).value;
    assert ref == TAG_PREFIX + tag;
    assert TAG_PREFIX[|TAG_PREFIX| - 1] == '/';
    assert tag == "" ==> ref == TAG_PREFIX;
    var twice := TAG_PREFIX + TAG_PREFIX;
    assert twice[|twice| - 1] == '/';
    assert tag == TAG_PREFIX ==> ref == twice;
  }

  /**
   The resolver's documentation says the environment is never empty. For the events that arrive this holds
   exactly when no branch and no file the rule maps is mapped to a blank name.
   */
  lemma NeverEmptyExactly(n: Names, rule: Rule)
    requires GitNames(n)
    ensures NeverEmpty(n, rule) <==> NoBlankBranch(n, rule) && NoBlankPath(n, rule)
  {
    var nothing := Lru([], map[]);
    if NeverEmpty(n, rule) {
      forall ref | n.isRef(ref) && BranchOf(ref) in rule.branchMap && BranchOf(ref) != ""
        ensures rule.branchMap[BranchOf(ref)] != ""
      {
        var path :| n.isPath(path);
        assert EnvOf(PushEvent(ref, path, None), rule, nothing) != "";
      }
      forall path | n.isPath(path) && path in rule.filePathMap && path != ""
        ensures rule.filePathMap[path] != ""
      {
        assert BranchOf("") == "";
        assert EnvOf(PushEvent("", path, None), rule, nothing) != "";
      }
    }
    if NoBlankBranch(n, rule) && NoBlankPath(n, rule) {
      forall ref, path, pr, cache | (ref == "" || n.isRef(ref)) && n.isPath(path)
        ensures EnvOf(PushEvent(ref, path, pr), rule, cache) != ""
      {
        if TagOf(ref).Some? {
          TagIsNeverBlank(n, ref);
        }
      }
    }
  }

  /**
   Where a tag goes when no map takes it: extract_branch leaves a tag's ref as it is, so the rule's
   branch settings come first and see a branch of that name.
   */
  lemma TagPushGoesTo(rule: Rule, tag: string, path: string, cache: Lru)
    requires rule.tagAsEnv && tag != "" && !(TAG_PREFIX <= tag)
    requires var ref := TAG_PREFIX + tag; ref !in rule.branchMap && !(path != "" && path in rule.filePathMap)
    ensures var ref := TAG_PREFIX + tag;
            EnvOf(PushEvent(ref, path, None), rule, cache) ==
            if rule.branchAsEnv then ref
            else if rule.prAsEnv && Given(Get(cache.prs, ref)) then "pr-" + cache.prs[ref]
            else tag
  {
    var ref := TAG_PREFIX + tag;
    assert ref[5] == 't' && BRANCH_PREFIX[5] == 'h';
    assert BranchOf(ref) == ref && TagOf(ref) == Some(tag);
  }

  /** A push to a branch is an event of the branch's plain name: the one the maps and the PR cache know it by. */
  lemma PushedBranchGoesTo(rule: Rule, branch: string, path: string, cache: Lru)
    requires branch != "" && !(path != "" && path in rule.filePathMap)
    ensures EnvOf(PushEvent("refs/heads/" + branch, path, None), rule, cache) ==
            if branch in rule.branchMap then rule.branchMap[branch]
            else if rule.branchAsEnv then branch
            else if rule.prAsEnv && branch in cache.prs && cache.prs[branch] != "" then "pr-" + cache.prs[branch]
            else "default"
  {
    var ref := "refs/heads/" + branch;
    assert ref[5] == 'h' && TAG_PREFIX[5] == 't';
    assert |BRANCH_PREFIX| == 11 && BRANCH_PREFIX + branch == ref && ref[11..] == branch;
    assert BranchOf(ref) == branch && TagOf(ref) == None;
  }
}

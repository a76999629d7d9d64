/** `src/__main__.py`: `CloudflareManager`, which keeps the gateway's block
    lists and their blocking policy in step with a list of domains (`run`)
    and removes them again (`leave`). Every resource it owns carries the
    name prefix `[AdBlock-<adlist name>]`; everything else in the account is
    left alone.

    What `run` and `leave` do to an account is stated twice: by the class's
    methods, which call the account one request at a time, and by the
    functions `RunResult` and `LeaveResult`, which give the calls they make
    and the account they leave. The methods are proved to agree with the
    functions, and the lemmas below say what the functions mean. */
module Manager {
  import opened Strings
  import opened Utils
  import opened Cloudflare
  import opened Remote

  /** With more domains than this, `run` gives up. */
  const DomainLimit: nat := 300000

  /** Domains per gateway list. */
  const ChunkSize: nat := 1000

  // ---------------------------------------------------------------------
  // Names
  // ---------------------------------------------------------------------

  /** `f"[AdBlock-{adlist_name}]"`: the tag of every owned resource; the
      adlist name can be read back from it. */
  function NamePrefix(adlistName: string): (r: string)
    ensures StartsWith(r, "[AdBlock-") && |r| == |adlistName| + 10
    ensures r[9..|r| - 1] == adlistName && r[|r| - 1] == ']'
  {
    "[AdBlock-" + adlistName + "]"
  }

  /** `f"{name_prefix} Block Ads"`: the name of the blocking policy, and the
      narrower prefix policies are deleted by. */
  function PolicyName(prefix: string): (r: string)
    ensures StartsWith(r, prefix) && r != prefix
  {
    StartsWithAppend(prefix, " Block Ads");
    prefix + " Block Ads"
  }

  /** `f"{name_prefix} - {slot:03d}"`: the name of the list in `slot`. */
  function ListName(prefix: string, slot: nat): (r: string)
    ensures StartsWith(r, prefix)
  {
    StartsWithAppend(prefix, " - " + ZeroPad3(slot));
    prefix + " - " + ZeroPad3(slot)
  }

  /** Different slots get different list names. */
  lemma ListNamesDistinct(prefix: string, a: nat, b: nat)
    requires ListName(prefix, a) == ListName(prefix, b)
    ensures a == b
  {
    var n := |prefix| + 3;
    assert ListName(prefix, a)[n..] == ZeroPad3(a);
    assert ListName(prefix, b)[n..] == ZeroPad3(b);
  }

  /** A name starting with the policy name starts with the name prefix. */
  lemma PolicyNameNarrower(prefix: string, name: string)
    requires StartsWith(name, PolicyName(prefix))
    ensures StartsWith(name, prefix)
  {
    assert name[..|prefix|] == PolicyName(prefix)[..|prefix|];
  }

  // ---------------------------------------------------------------------
  // Lists and calls of a resync
  // ---------------------------------------------------------------------

  /** `sum([l["count"] for l in lists])` */
  function SumCounts(lists: seq<ListRes>): nat {
    if lists == [] then 0 else lists[0].data.count + SumCounts(lists[1..])
  }

  /** The items of each list, in order. */
  function ListItems(lists: seq<ListRes>): (r: seq<seq<string>>)
    ensures |r| == |lists|
  {
    seq(|lists|, i requires 0 <= i < |lists| => lists[i].data.items)
  }

  /** The bodies a resync posts, one per chunk: slot `k + 1` holds chunk
      `k`. */
  function ListBodies(prefix: string, chunks: seq<seq<string>>): (r: seq<ListBody>)
    ensures |r| == |chunks|
  {
    seq(|chunks|, k requires 0 <= k < |chunks| => CreateListBody(ListName(prefix, k + 1), chunks[k]))
  }

  /** The lists a resync creates for `chunks` when the account's next id is
      `first`. */
  function NewLists(prefix: string, chunks: seq<seq<string>>, first: Id): (r: seq<ListRes>)
    ensures |r| == |chunks|
    ensures forall k :: 0 <= k < |r| ==>
              && r[k].id == first + k && r[k].name == ListName(prefix, k + 1)
              && r[k].data == ListData(|chunks[k]|, chunks[k])
  {
    var bodies := ListBodies(prefix, chunks);
    var r := PostedLists(bodies, first);
    forall k | 0 <= k < |chunks|
      ensures r[k].id == first + k && r[k].name == ListName(prefix, k + 1)
      ensures r[k].data == ListData(|chunks[k]|, chunks[k])
    {
      var name := ListName(prefix, k + 1);
      assert bodies[k] == CreateListBody(name, chunks[k]);
      ListBodyRoundTrip(name, chunks[k]);
      assert r[k] == NewList(first + k, bodies[k]);
    }
    r
  }

  /** The list-creating calls of a resync, one per chunk in order. */
  function ListPosts(prefix: string, chunks: seq<seq<string>>): (r: seq<Call>)
    ensures |r| == |chunks|
  {
    ListPostCalls(ListBodies(prefix, chunks))
  }

  /** One delete call per list, in order. */
  function ListDeletes(lists: seq<ListRes>): (r: seq<Call>)
    ensures |r| == |lists|
  {
    seq(|lists|, i requires 0 <= i < |lists| => ListDelete(lists[i].id))
  }

  /** One delete call per rule, in order. */
  function RuleDeletes(rules: seq<RuleRes>): (r: seq<Call>)
    ensures |r| == |rules|
  {
    seq(|rules|, i requires 0 <= i < |rules| => RuleDelete(rules[i].id))
  }

  lemma {:induction false} SumCountsAppend(a: seq<ListRes>, b: seq<ListRes>)
    ensures SumCounts(a + b) == SumCounts(a) + SumCounts(b)
  {
    if a == [] {
      assert a + b == b;
    } else {
      assert (a + b)[1..] == a[1..] + b;
      SumCountsAppend(a[1..], b);
    }
  }

  /** The counts of a resync's lists add up to the number of domains
      chunked. */
  /** When every list's count is its number of items, the counts add up to
      the number of items over all lists. */
  lemma {:induction false} SumCountsItems(lists: seq<ListRes>)
    requires forall k :: 0 <= k < |lists| ==> lists[k].data.count == |lists[k].data.items|
    ensures SumCounts(lists) == |Flatten(ListItems(lists))|
    decreases |lists|
  {
    if lists != [] {
      SumCountsItems(lists[1..]);
      assert ListItems(lists)[1..] == ListItems(lists[1..]);
    }
  }

  /** The counts of a resync's lists add up to the number of domains
      chunked. */
  lemma NewListsCount(prefix: string, chunks: seq<seq<string>>, first: Id)
    ensures SumCounts(NewLists(prefix, chunks, first)) == |Flatten(chunks)|
  {
    assert ListItems(NewLists(prefix, chunks, first)) == chunks;
    SumCountsItems(NewLists(prefix, chunks, first));
  }

  /** The lists of a resync hold the domains: their items read back in slot
      order are the domains, their counts add up to the number of domains,
      and there are ⌈|domains| / 1000⌉ of them. */
  lemma ResyncListsHoldDomains(prefix: string, domains: seq<string>, first: Id)
    ensures Flatten(ListItems(NewLists(prefix, ChunkList(domains, ChunkSize), first))) == domains
    ensures SumCounts(NewLists(prefix, ChunkList(domains, ChunkSize), first)) == |domains|
    ensures |NewLists(prefix, ChunkList(domains, ChunkSize), first)| == (|domains| + ChunkSize - 1) / ChunkSize
  {
    var chunks := ChunkList(domains, ChunkSize);
    assert ListItems(NewLists(prefix, chunks, first)) == chunks;
    NewListsCount(prefix, chunks, first);
    ChunkCount(domains, ChunkSize);
  }

  /** Resources whose names all carry the prefix pass its filter whole. */
  lemma {:induction false} AllPrefixed<D>(xs: seq<Resource<D>>, prefix: string)
    requires forall i :: 0 <= i < |xs| ==> StartsWith(xs[i].name, prefix)
    ensures Prefixed(xs, prefix) == xs && Unprefixed(xs, prefix) == []
  {
    if xs != [] {
      AllPrefixed(xs[1..], prefix);
    }
  }

  /** A resource carrying the prefix makes its filter non-empty. */
  lemma SomePrefixed<D>(xs: seq<Resource<D>>, prefix: string, i: nat)
    requires i < |xs| && StartsWith(xs[i].name, prefix)
    ensures Prefixed(xs, prefix) != []
  {
    PrefixedMembers(xs, prefix, xs[i]);
  }

  /** What is left after removing everything under the policy name and then
      everything under the name prefix is what removing the name prefix
      alone leaves. */
  lemma {:induction false} UnprefixedNarrower<D>(xs: seq<Resource<D>>, prefix: string)
    ensures Unprefixed(Unprefixed(xs, PolicyName(prefix)), prefix) == Unprefixed(xs, prefix)
  {
    if xs != [] {
      UnprefixedNarrower(xs[1..], prefix);
      if StartsWith(xs[0].name, PolicyName(prefix)) {
        PolicyNameNarrower(prefix, xs[0].name);
        var t1 := Unprefixed(xs[1..], PolicyName(prefix));
        var t2 := Unprefixed(xs[1..], prefix);
        assert [] + t1 == t1 && [] + t2 == t2;
        assert Unprefixed(xs, PolicyName(prefix)) == t1;
        assert Unprefixed(xs, prefix) == t2;
      } else {
        var rest := Unprefixed(xs[1..], PolicyName(prefix));
        assert Unprefixed(xs, PolicyName(prefix)) == [xs[0]] + rest;
        assert ([xs[0]] + rest)[1..] == rest;
      }
    }
  }

  lemma DistinctUnprefixed<D>(xs: seq<Resource<D>>, prefix: string, bound: nat)
    requires IdsBelow(xs, bound) && DistinctIds(xs)
    ensures IdsBelow(Unprefixed(xs, prefix), bound) && DistinctIds(Unprefixed(xs, prefix))
  {
    DeletePrefixed(xs, prefix);
    WithoutIdsValid(xs, IdsOf(Prefixed(xs, prefix)), bound);
  }

  lemma {:induction false} WithoutNone<D>(xs: seq<Resource<D>>)
    ensures WithoutIds(xs, {}) == xs
  {
    if xs != [] {
      WithoutNone(xs[1..]);
    }
  }

  // ---------------------------------------------------------------------
  // What a run of calls does to the account
  // ---------------------------------------------------------------------

  /** Deleting rules one by one removes exactly their ids. */
  lemma {:induction false} RuleDeletesEffect(a: Account, rs: seq<RuleRes>)
    ensures Steps(a, RuleDeletes(rs)) == a.(rules := WithoutIds(a.rules, IdsOf(rs)), log := a.log + RuleDeletes(rs))
    decreases |rs|
  {
    if rs == [] {
      assert IdsOf(rs) == {};
      WithoutNone(a.rules);
    } else {
      var n := |rs| - 1;
      var c := RuleDelete(rs[n].id);
      RuleDeletesEffect(a, rs[..n]);
      assert RuleDeletes(rs) == RuleDeletes(rs[..n]) + [c];
      StepsAppend(a, RuleDeletes(rs[..n]), [c]);
      StepsOne(Steps(a, RuleDeletes(rs[..n])), c);
      WithoutIdsStep(a.rules, IdsOf(rs[..n]), rs[n].id);
      assert rs == rs[..n] + [rs[n]];
      IdsOfAppend(rs[..n], [rs[n]]);
      assert IdsOf([rs[n]]) == {rs[n].id};
    }
  }

  /** Deleting lists one by one removes exactly their ids. */
  lemma {:induction false} ListDeletesEffect(a: Account, ls: seq<ListRes>)
    ensures Steps(a, ListDeletes(ls)) == a.(lists := WithoutIds(a.lists, IdsOf(ls)), log := a.log + ListDeletes(ls))
    decreases |ls|
  {
    if ls == [] {
      assert IdsOf(ls) == {};
      WithoutNone(a.lists);
    } else {
      var n := |ls| - 1;
      var c := ListDelete(ls[n].id);
      ListDeletesEffect(a, ls[..n]);
      assert ListDeletes(ls) == ListDeletes(ls[..n]) + [c];
      StepsAppend(a, ListDeletes(ls[..n]), [c]);
      StepsOne(Steps(a, ListDeletes(ls[..n])), c);
      WithoutIdsStep(a.lists, IdsOf(ls[..n]), ls[n].id);
      assert ls == ls[..n] + [ls[n]];
      IdsOfAppend(ls[..n], [ls[n]]);
      assert IdsOf([ls[n]]) == {ls[n].id};
    }
  }

  /** Creating one list per chunk appends the lists `NewLists` describes,
      under consecutive fresh ids. */
  lemma ListPostsEffect(a: Account, prefix: string, chunks: seq<seq<string>>)
    ensures Steps(a, ListPosts(prefix, chunks))
         == a.(lists := a.lists + NewLists(prefix, chunks, a.nextId), nextId := a.nextId + |chunks|,
               log := a.log + ListPosts(prefix, chunks))
  {
    ListPostCallsEffect(a, ListBodies(prefix, chunks));
  }

  // ---------------------------------------------------------------------
  // `run` and `leave` as functions of the account
  // ---------------------------------------------------------------------

  /** How a call to `run` ended. */
  datatype Outcome =
    | NoDomains         // no domains: warned and returned
    | TooManyDomains    // over the limit: warned and returned
    | PolicyCreated     // same total size, no policy yet: the policy was created
    | PolicyExists      // same total size, a policy exists: returned
    | Resynced          // lists rebuilt and the single policy created or updated
    | MultiplePolicies  // lists rebuilt, then more than one policy found: raised

  /** `run` on account `a` once the domains are known: the account it leaves
      and how it ends. */
  function RunResult(a: Account, prefix: string, domains: seq<string>): (Account, Outcome) {
    if |domains| == 0 then (a, NoDomains)
    else if |domains| > DomainLimit then (a, TooManyDomains)
    else
      var owned := Prefixed(a.lists, prefix);
      if |domains| == SumCounts(owned) then FastPathResult(Step(a, ListsGet), prefix, IdList(owned))
      else ResyncResult(Step(a, ListsGet), prefix, domains)
  }

  /** The branch taken when the owned lists' counts add up to the number of
      domains; `ids` are the owned lists' ids. */
  function FastPathResult(a: Account, prefix: string, ids: seq<Id>): (Account, Outcome) {
    var a1 := Step(a, RulesGet);
    if Prefixed(a.rules, prefix) == [] then (Step(a1, RulePost(CreatePolicyBody(PolicyName(prefix), ids))), PolicyCreated)
    else (a1, PolicyExists)
  }

  /** The full resync: delete the policies under the policy name, delete the
      owned lists, create one list per chunk, then the policy step. */
  function ResyncResult(a: Account, prefix: string, domains: seq<string>): (Account, Outcome) {
    var a1 := Steps(a, [RulesGet] + RuleDeletes(Prefixed(a.rules, PolicyName(prefix)))
                       + ListDeletes(Prefixed(a.lists, prefix)));
    var chunks := ChunkList(domains, ChunkSize);
    var a2 := Steps(a1, ListPosts(prefix, chunks) + [RulesGet]);
    PolicyResult(a2, prefix, IdList(NewLists(prefix, chunks, a1.nextId)))
  }

  /** The policy step of a resync, over the rules under the name prefix:
      create one when there is none, update it when there is one, raise when
      there are more. */
  function PolicyResult(a: Account, prefix: string, ids: seq<Id>): (Account, Outcome) {
    var matching := Prefixed(a.rules, prefix);
    if |matching| == 0 then (Step(a, RulePost(CreatePolicyBody(PolicyName(prefix), ids))), Resynced)
    else if |matching| != 1 then (a, MultiplePolicies)
    else (Step(a, RulePut(matching[0].id, UpdatePolicyBody(PolicyName(prefix), ids))), Resynced)
  }

  /** `leave` on account `a`: delete the policies under the policy name,
      then the lists under the name prefix. */
  function LeaveResult(a: Account, prefix: string): Account {
    var a1 := Steps(a, [RulesGet] + RuleDeletes(Prefixed(a.rules, PolicyName(prefix))));
    Steps(a1, [ListsGet] + ListDeletes(Prefixed(a1.lists, prefix)))
  }

  // ---------------------------------------------------------------------
  // What `run` and `leave` do
  // ---------------------------------------------------------------------

  /** The gates: no domains, or more than the limit, and `run` makes no call
      at all; exactly the limit goes on to list the account. */
  lemma RunGates(a: Account, prefix: string, domains: seq<string>)
    ensures |domains| == 0 ==> RunResult(a, prefix, domains) == (a, NoDomains)
    ensures |domains| > DomainLimit ==> RunResult(a, prefix, domains) == (a, TooManyDomains)
    ensures 0 < |domains| <= DomainLimit ==>
              |RunResult(a, prefix, domains).0.log| > |a.log| && RunResult(a, prefix, domains).0.log[|a.log|] == ListsGet
  {
    if 0 < |domains| <= DomainLimit {
      var r := RunResult(a, prefix, domains).0;
      var b := Step(a, ListsGet);
      assert |r.log| >= |b.log| && r.log[..|b.log|] == b.log;
      assert r.log[|a.log|] == r.log[..|b.log|][|a.log|];
    }
  }

  /** The fast path compares only the total count: no list is created or
      deleted, whatever the lists hold; the policy is created over the
      owned lists' ids, in listing order, only when no rule carries the name
      prefix, and otherwise nothing changes. */
  lemma FastPathEffect(a: Account, prefix: string, domains: seq<string>)
    requires 0 < |domains| <= DomainLimit
    requires SumCounts(Prefixed(a.lists, prefix)) == |domains|
    ensures
      var (r, outcome) := RunResult(a, prefix, domains);
      var body := CreatePolicyBody(PolicyName(prefix), IdList(Prefixed(a.lists, prefix)));
      && r.lists == a.lists
      && (Prefixed(a.rules, prefix) == [] ==>
            && outcome == PolicyCreated
            && r.rules == a.rules + [NewRule(a.nextId, body)] && r.nextId == a.nextId + 1
            && r.log == a.log + [ListsGet, RulesGet, RulePost(body)])
      && (Prefixed(a.rules, prefix) != [] ==>
            && outcome == PolicyExists
            && r == a.(log := a.log + [ListsGet, RulesGet]))
  {
  }

  /** The account just before the policy step of a resync: the policies
      under the policy name and the owned lists are gone, in that order, and
      the new lists are appended after everything else. */
  lemma ResyncBeforePolicy(a: Account, prefix: string, domains: seq<string>)
    requires DistinctIds(a.lists) && DistinctIds(a.rules)
    ensures
      var pp := PolicyName(prefix);
      var chunks := ChunkList(domains, ChunkSize);
      var a1 := Steps(a, [RulesGet] + RuleDeletes(Prefixed(a.rules, pp)) + ListDeletes(Prefixed(a.lists, prefix)));
      var a2 := Steps(a1, ListPosts(prefix, chunks) + [RulesGet]);
      && a1.nextId == a.nextId
      && a2.lists == Unprefixed(a.lists, prefix) + NewLists(prefix, chunks, a.nextId)
      && a2.rules == Unprefixed(a.rules, pp)
      && a2.nextId == a.nextId + |chunks|
      && a2.log == a.log + [RulesGet] + RuleDeletes(Prefixed(a.rules, pp)) + ListDeletes(Prefixed(a.lists, prefix))
                   + ListPosts(prefix, chunks) + [RulesGet]
  {
    var pp := PolicyName(prefix);
    var chunks := ChunkList(domains, ChunkSize);
    var dr := RuleDeletes(Prefixed(a.rules, pp));
    var dl := ListDeletes(Prefixed(a.lists, prefix));
    var b := Step(a, RulesGet);
    StepsOne(a, RulesGet);
    StepsAppend(a, [RulesGet], dr);
    StepsAppend(a, [RulesGet] + dr, dl);
    RuleDeletesEffect(b, Prefixed(a.rules, pp));
    var c := Steps(b, dr);
    ListDeletesEffect(c, Prefixed(a.lists, prefix));
    DeletePrefixed(a.rules, pp);
    DeletePrefixed(a.lists, prefix);
    var a1 := Steps(c, dl);
    StepsAppend(a1, ListPosts(prefix, chunks), [RulesGet]);
    ListPostsEffect(a1, prefix, chunks);
    StepsOne(Steps(a1, ListPosts(prefix, chunks)), RulesGet);
  }

  /** The policy step on its own: with no rule under the name prefix a
      policy is created under the next id, with one the rule is replaced
      under its own id, with more nothing changes. Lists are untouched. */
  lemma PolicyStepEffect(a: Account, prefix: string, ids: seq<Id>)
    ensures
      var (r, outcome) := PolicyResult(a, prefix, ids);
      var pp := PolicyName(prefix);
      var matching := Prefixed(a.rules, prefix);
      && r.lists == a.lists
      && (|matching| == 0 ==>
            outcome == Resynced && r.rules == a.rules + [NewRule(a.nextId, CreatePolicyBody(pp, ids))]
            && r.nextId == a.nextId + 1)
      && (|matching| == 1 ==>
            outcome == Resynced && r.rules == ReplaceRule(a.rules, matching[0].id, UpdatePolicyBody(pp, ids))
            && r.nextId == a.nextId)
      && (|matching| > 1 ==> outcome == MultiplePolicies && r.rules == a.rules && r.nextId == a.nextId)
  {
  }

  /** The full resync: the owned lists are replaced by one new list per
      chunk, even when the run ends by raising; the policies under the
      policy name are deleted; the policy step finds, under the broader name
      prefix, no rule (creates the policy over the new lists' ids), one rule
      (puts the policy under that rule's id, renaming it) or several
      (changes nothing more and raises). */
  lemma ResyncEffect(a: Account, prefix: string, domains: seq<string>)
    requires Consistent(a)
    requires 0 < |domains| <= DomainLimit
    requires SumCounts(Prefixed(a.lists, prefix)) != |domains|
    ensures
      var (r, outcome) := RunResult(a, prefix, domains);
      var pp := PolicyName(prefix);
      var chunks := ChunkList(domains, ChunkSize);
      var created := NewLists(prefix, chunks, a.nextId);
      var kept := Unprefixed(a.rules, pp);
      var matching := Prefixed(kept, prefix);
      var ids := IdList(created);
      && r.lists == Unprefixed(a.lists, prefix) + created
      && (|matching| == 0 ==>
            && outcome == Resynced
            && r.rules == kept + [NewRule(a.nextId + |chunks|, CreatePolicyBody(pp, ids))]
            && r.nextId == a.nextId + |chunks| + 1)
      && (|matching| == 1 ==>
            && outcome == Resynced
            && r.rules == ReplaceRule(kept, matching[0].id, UpdatePolicyBody(pp, ids))
            && r.nextId == a.nextId + |chunks|)
      && (|matching| > 1 ==>
            && outcome == MultiplePolicies
            && r.rules == kept
            && r.nextId == a.nextId + |chunks|)
  {
    var pp := PolicyName(prefix);
    var chunks := ChunkList(domains, ChunkSize);
    var b := Step(a, ListsGet);
    assert RunResult(a, prefix, domains) == ResyncResult(b, prefix, domains);
    ResyncBeforePolicy(b, prefix, domains);
    var a1 := Steps(b, [RulesGet] + RuleDeletes(Prefixed(b.rules, pp)) + ListDeletes(Prefixed(b.lists, prefix)));
    var a2 := Steps(a1, ListPosts(prefix, chunks) + [RulesGet]);
    var ids := IdList(NewLists(prefix, chunks, a1.nextId));
    assert ResyncResult(b, prefix, domains) == PolicyResult(a2, prefix, ids);
    PolicyStepEffect(a2, prefix, ids);
  }

  lemma ResyncOutcome(a: Account, prefix: string, domains: seq<string>)
    requires Consistent(a)
    requires 0 < |domains| <= DomainLimit
    requires SumCounts(Prefixed(a.lists, prefix)) != |domains|
    ensures RunResult(a, prefix, domains).1
         == if |Prefixed(Unprefixed(a.rules, PolicyName(prefix)), prefix)| <= 1 then Resynced else MultiplePolicies
  {
    ResyncEffect(a, prefix, domains);
  }

  lemma ResyncLists(a: Account, prefix: string, domains: seq<string>)
    requires Consistent(a)
    requires 0 < |domains| <= DomainLimit
    requires SumCounts(Prefixed(a.lists, prefix)) != |domains|
    ensures RunResult(a, prefix, domains).0.lists
         == Unprefixed(a.lists, prefix) + NewLists(prefix, ChunkList(domains, ChunkSize), a.nextId)
  {
    ResyncEffect(a, prefix, domains);
  }

  /** The calls of a resync, in order: list the lists, list the rules,
      delete the policies under the policy name, delete the owned lists,
      create the new lists, list the rules again, then at most one policy
      call. */
  lemma ResyncCalls(a: Account, prefix: string, domains: seq<string>)
    requires Consistent(a)
    requires 0 < |domains| <= DomainLimit
    requires SumCounts(Prefixed(a.lists, prefix)) != |domains|
    ensures
      var (r, outcome) := RunResult(a, prefix, domains);
      var pp := PolicyName(prefix);
      var chunks := ChunkList(domains, ChunkSize);
      var ids := IdList(NewLists(prefix, chunks, a.nextId));
      var matching := Prefixed(Unprefixed(a.rules, pp), prefix);
      var start := a.log + [ListsGet, RulesGet] + RuleDeletes(Prefixed(a.rules, pp))
                   + ListDeletes(Prefixed(a.lists, prefix)) + ListPosts(prefix, chunks) + [RulesGet];
      && (|matching| == 0 ==> r.log == start + [RulePost(CreatePolicyBody(pp, ids))])
      && (|matching| == 1 ==> r.log == start + [RulePut(matching[0].id, UpdatePolicyBody(pp, ids))])
      && (|matching| > 1 ==> r.log == start)
  {
    ResyncBeforePolicy(Step(a, ListsGet), prefix, domains);
    assert a.log + [ListsGet] + [RulesGet] == a.log + [ListsGet, RulesGet];
  }

  /** Dropping the owned lists and appending new owned ones: the owned
      lists are then the new ones, and the others are as they were. */
  lemma OwnedListsReplaced(lists: seq<ListRes>, prefix: string, created: seq<ListRes>)
    requires forall i :: 0 <= i < |created| ==> StartsWith(created[i].name, prefix)
    ensures Prefixed(Unprefixed(lists, prefix) + created, prefix) == created
    ensures Unprefixed(Unprefixed(lists, prefix) + created, prefix) == Unprefixed(lists, prefix)
  {
    PrefixedAppend(Unprefixed(lists, prefix), created, prefix);
    PrefixedIdempotent(lists, prefix);
    AllPrefixed(created, prefix);
    assert Unprefixed(lists, prefix) + [] == Unprefixed(lists, prefix);
  }

  /** After a resync the owned lists are exactly the new ones, named by slot,
      holding the domains in order; the other lists are as they were. */
  lemma ResyncOwnedLists(a: Account, prefix: string, domains: seq<string>)
    requires Consistent(a)
    requires 0 < |domains| <= DomainLimit
    requires SumCounts(Prefixed(a.lists, prefix)) != |domains|
    ensures
      var r := RunResult(a, prefix, domains).0;
      var owned := Prefixed(r.lists, prefix);
      && owned == NewLists(prefix, ChunkList(domains, ChunkSize), a.nextId)
      && Flatten(ListItems(owned)) == domains
      && SumCounts(owned) == |domains|
      && |owned| == (|domains| + ChunkSize - 1) / ChunkSize
      && Unprefixed(r.lists, prefix) == Unprefixed(a.lists, prefix)
  {
    ResyncLists(a, prefix, domains);
    OwnedListsReplaced(a.lists, prefix, NewLists(prefix, ChunkList(domains, ChunkSize), a.nextId));
    ResyncListsHoldDomains(prefix, domains, a.nextId);
  }

  /** Replacing a rule that carries the prefix by one that carries it too
      leaves the rules without the prefix as they were. */
  lemma {:induction false} ReplaceKeepsUnprefixed(rules: seq<RuleRes>, id: Id, body: PolicyBody, prefix: string)
    requires StartsWith(body.name, prefix)
    requires forall i :: 0 <= i < |rules| && rules[i].id == id ==> StartsWith(rules[i].name, prefix)
    ensures Unprefixed(ReplaceRule(rules, id, body), prefix) == Unprefixed(rules, prefix)
  {
    if rules != [] {
      var r := ReplaceRule(rules, id, body);
      assert r[1..] == ReplaceRule(rules[1..], id, body);
      ReplaceKeepsUnprefixed(rules[1..], id, body, prefix);
    }
  }

  /** On the fast path the only change is the policy it may add, which
      carries the name prefix. */
  lemma FastPathKeepsForeign(a: Account, prefix: string, domains: seq<string>)
    requires 0 < |domains| <= DomainLimit
    requires SumCounts(Prefixed(a.lists, prefix)) == |domains|
    ensures
      var r := RunResult(a, prefix, domains).0;
      && Unprefixed(r.lists, prefix) == Unprefixed(a.lists, prefix)
      && Unprefixed(r.rules, prefix) == Unprefixed(a.rules, prefix)
  {
    FastPathEffect(a, prefix, domains);
    if Prefixed(a.rules, prefix) == [] {
      var extra := [NewRule(a.nextId, CreatePolicyBody(PolicyName(prefix), IdList(Prefixed(a.lists, prefix))))];
      PrefixedAppend(a.rules, extra, prefix);
      assert Unprefixed(a.rules, prefix) + [] == Unprefixed(a.rules, prefix);
    }
  }

  /** Adding a rule under the prefix leaves the others as they were. */
  lemma AppendKeepsUnprefixed<D>(xs: seq<Resource<D>>, x: Resource<D>, prefix: string)
    requires StartsWith(x.name, prefix)
    ensures Unprefixed(xs + [x], prefix) == Unprefixed(xs, prefix)
  {
    PrefixedAppend(xs, [x], prefix);
    assert Unprefixed(xs, prefix) + [] == Unprefixed(xs, prefix);
  }

  /** Replacing the one rule under the prefix, by one under the prefix,
      leaves the others as they were. */
  lemma ReplaceOnlyKeepsUnprefixed(rules: seq<RuleRes>, prefix: string, body: PolicyBody)
    requires DistinctIds(rules)
    requires |Prefixed(rules, prefix)| == 1 && StartsWith(body.name, prefix)
    ensures Unprefixed(ReplaceRule(rules, Prefixed(rules, prefix)[0].id, body), prefix) == Unprefixed(rules, prefix)
  {
    var m := Prefixed(rules, prefix)[0];
    PrefixedMembers(rules, prefix, m);
    var j :| 0 <= j < |rules| && rules[j] == m;
    forall i | 0 <= i < |rules| && rules[i].id == m.id
      ensures StartsWith(rules[i].name, prefix)
    {
      assert i == j;
    }
    ReplaceKeepsUnprefixed(rules, m.id, body, prefix);
  }

  /** The rules after the policy step, when the rules before it are
      `rules` and the account's next id is `id`. */
  function PolicyRules(rules: seq<RuleRes>, prefix: string, id: Id, ids: seq<Id>): seq<RuleRes> {
    var matching := Prefixed(rules, prefix);
    if |matching| == 0 then rules + [NewRule(id, CreatePolicyBody(PolicyName(prefix), ids))]
    else if |matching| == 1 then ReplaceRule(rules, matching[0].id, UpdatePolicyBody(PolicyName(prefix), ids))
    else rules
  }

  /** The policy step leaves the rules without the name prefix as they
      were. */
  lemma PolicyRulesKeepUnprefixed(rules: seq<RuleRes>, prefix: string, id: Id, ids: seq<Id>)
    requires DistinctIds(rules)
    ensures Unprefixed(PolicyRules(rules, prefix, id, ids), prefix) == Unprefixed(rules, prefix)
  {
    var pp := PolicyName(prefix);
    var matching := Prefixed(rules, prefix);
    if |matching| == 0 {
      AppendKeepsUnprefixed(rules, NewRule(id, CreatePolicyBody(pp, ids)), prefix);
    } else if |matching| == 1 {
      ReplaceOnlyKeepsUnprefixed(rules, prefix, UpdatePolicyBody(pp, ids));
    }
  }

  lemma ResyncRules(a: Account, prefix: string, domains: seq<string>)
    requires Consistent(a)
    requires 0 < |domains| <= DomainLimit
    requires SumCounts(Prefixed(a.lists, prefix)) != |domains|
    ensures
      var chunks := ChunkList(domains, ChunkSize);
      RunResult(a, prefix, domains).0.rules
        == PolicyRules(Unprefixed(a.rules, PolicyName(prefix)), prefix, a.nextId + |chunks|,
                       IdList(NewLists(prefix, chunks, a.nextId)))
  {
    ResyncEffect(a, prefix, domains);
  }

  /** A resync leaves every rule without the name prefix where it was: the
      delete works under the narrower policy name, and what the policy step
      adds or replaces carries the name prefix. Stated for every id and id
      list the policy step may be given. */
  lemma ResyncKeepsForeignRules(rules: seq<RuleRes>, prefix: string, bound: nat)
    requires IdsBelow(rules, bound) && DistinctIds(rules)
    ensures forall id: Id, ids: seq<Id> ::
              Unprefixed(PolicyRules(Unprefixed(rules, PolicyName(prefix)), prefix, id, ids), prefix)
                == Unprefixed(rules, prefix)
  {
    var kept := Unprefixed(rules, PolicyName(prefix));
    UnprefixedNarrower(rules, prefix);
    DistinctUnprefixed(rules, PolicyName(prefix), bound);
    forall id: Id, ids: seq<Id>
      ensures Unprefixed(PolicyRules(kept, prefix, id, ids), prefix) == Unprefixed(rules, prefix)
    {
      PolicyRulesKeepUnprefixed(kept, prefix, id, ids);
    }
  }

  lemma ResyncKeepsForeign(a: Account, prefix: string, domains: seq<string>)
    requires Consistent(a)
    requires 0 < |domains| <= DomainLimit
    requires SumCounts(Prefixed(a.lists, prefix)) != |domains|
    ensures Unprefixed(RunResult(a, prefix, domains).0.rules, prefix) == Unprefixed(a.rules, prefix)
  {
    ResyncRules(a, prefix, domains);
    ResyncKeepsForeignRules(a.rules, prefix, a.nextId);
  }

  /** Rules whose names do not carry the name prefix are never touched by
      `run`, and neither are lists whose names do not. */
  lemma RunKeepsForeign(a: Account, prefix: string, domains: seq<string>)
    requires Consistent(a)
    ensures
      var r := RunResult(a, prefix, domains).0;
      && Unprefixed(r.lists, prefix) == Unprefixed(a.lists, prefix)
      && Unprefixed(r.rules, prefix) == Unprefixed(a.rules, prefix)
  {
    if 0 < |domains| <= DomainLimit {
      if SumCounts(Prefixed(a.lists, prefix)) == |domains| {
        FastPathKeepsForeign(a, prefix, domains);
      } else {
        ResyncOwnedLists(a, prefix, domains);
        ResyncKeepsForeign(a, prefix, domains);
      }
    }
  }

  /** `run` keeps the account consistent. */
  lemma RunConsistent(a: Account, prefix: string, domains: seq<string>)
    requires Consistent(a)
    ensures Consistent(RunResult(a, prefix, domains).0)
  {
    if 0 < |domains| <= DomainLimit {
      var b := Step(a, ListsGet);
      StepConsistent(a, ListsGet);
      StepConsistent(b, RulesGet);
      var pp := PolicyName(prefix);
      if SumCounts(Prefixed(a.lists, prefix)) == |domains| {
        StepConsistent(Step(b, RulesGet), RulePost(CreatePolicyBody(pp, IdList(Prefixed(a.lists, prefix)))));
      } else {
        var first := [RulesGet] + RuleDeletes(Prefixed(b.rules, pp)) + ListDeletes(Prefixed(b.lists, prefix));
        var a1 := Steps(b, first);
        var chunks := ChunkList(domains, ChunkSize);
        StepsConsistent(b, first);
        var a2 := Steps(a1, ListPosts(prefix, chunks) + [RulesGet]);
        StepsConsistent(a1, ListPosts(prefix, chunks) + [RulesGet]);
        var ids := IdList(NewLists(prefix, chunks, a1.nextId));
        var matching := Prefixed(a2.rules, prefix);
        StepConsistent(a2, RulePost(CreatePolicyBody(pp, ids)));
        if |matching| == 1 {
          StepConsistent(a2, RulePut(matching[0].id, UpdatePolicyBody(pp, ids)));
        }
      }
    }
  }

  /** A run that did not raise leaves owned lists whose counts add up to
      the number of domains, and a rule under the name prefix. */
  lemma RunSettles(a: Account, prefix: string, domains: seq<string>)
    requires Consistent(a)
    requires 0 < |domains| <= DomainLimit
    requires RunResult(a, prefix, domains).1 != MultiplePolicies
    ensures
      var b := RunResult(a, prefix, domains).0;
      SumCounts(Prefixed(b.lists, prefix)) == |domains| && Prefixed(b.rules, prefix) != []
  {
    var b := RunResult(a, prefix, domains).0;
    if SumCounts(Prefixed(a.lists, prefix)) == |domains| {
      FastPathEffect(a, prefix, domains);
      if Prefixed(a.rules, prefix) == [] {
        SomePrefixed(b.rules, prefix, |a.rules|);
      }
    } else {
      ResyncOwnedLists(a, prefix, domains);
      ResyncOutcome(a, prefix, domains);
      ResyncRules(a, prefix, domains);
      PolicyRulesLeavePolicy(Unprefixed(a.rules, PolicyName(prefix)), prefix);
    }
  }

  /** The policy step, unless it raises, leaves a rule under the name
      prefix. */
  lemma PolicyRulesLeavePolicy(rules: seq<RuleRes>, prefix: string)
    requires |Prefixed(rules, prefix)| <= 1
    ensures forall id: Id, ids: seq<Id> :: Prefixed(PolicyRules(rules, prefix, id, ids), prefix) != []
  {
    var pp := PolicyName(prefix);
    forall id: Id, ids: seq<Id>
      ensures Prefixed(PolicyRules(rules, prefix, id, ids), prefix) != []
    {
      var matching := Prefixed(rules, prefix);
      if |matching| == 0 {
        SomePrefixed(rules + [NewRule(id, CreatePolicyBody(pp, ids))], prefix, |rules|);
      } else {
        var m := matching[0];
        PrefixedMembers(rules, prefix, m);
        var j :| 0 <= j < |rules| && rules[j] == m;
        var r := ReplaceRule(rules, m.id, UpdatePolicyBody(pp, ids));
        SomePrefixed(r, prefix, j);
      }
    }
  }

  /** Running again with the same domains after a run that did not raise
      finds the owned lists' counts matching and a policy present, and
      changes nothing: it only lists the lists and the rules. */
  lemma RunConverges(a: Account, prefix: string, domains: seq<string>)
    requires Consistent(a)
    requires 0 < |domains| <= DomainLimit
    requires RunResult(a, prefix, domains).1 != MultiplePolicies
    ensures
      var b := RunResult(a, prefix, domains).0;
      RunResult(b, prefix, domains) == (b.(log := b.log + [ListsGet, RulesGet]), PolicyExists)
  {
    RunSettles(a, prefix, domains);
    FastPathEffect(RunResult(a, prefix, domains).0, prefix, domains);
  }

  /** `leave` deletes exactly the rules under the policy name and the lists
      under the name prefix, rules first; everything else stays. */
  lemma LeaveEffect(a: Account, prefix: string)
    requires DistinctIds(a.lists) && DistinctIds(a.rules)
    ensures
      var r := LeaveResult(a, prefix);
      var pp := PolicyName(prefix);
      && r.rules == Unprefixed(a.rules, pp)
      && r.lists == Unprefixed(a.lists, prefix)
      && r.nextId == a.nextId
      && r.log == a.log + [RulesGet] + RuleDeletes(Prefixed(a.rules, pp))
                  + [ListsGet] + ListDeletes(Prefixed(a.lists, prefix))
  {
    var pp := PolicyName(prefix);
    var dr := RuleDeletes(Prefixed(a.rules, pp));
    var b := Step(a, RulesGet);
    StepsOne(a, RulesGet);
    StepsAppend(a, [RulesGet], dr);
    RuleDeletesEffect(b, Prefixed(a.rules, pp));
    DeletePrefixed(a.rules, pp);
    var a1 := Steps(a, [RulesGet] + dr);
    var c := Step(a1, ListsGet);
    var dl := ListDeletes(Prefixed(a1.lists, prefix));
    StepsOne(a1, ListsGet);
    StepsAppend(a1, [ListsGet], dl);
    ListDeletesEffect(c, Prefixed(a1.lists, prefix));
    DeletePrefixed(a.lists, prefix);
  }

  /** A second `leave` deletes nothing: it only lists the rules and the
      lists. */
  lemma LeaveTwice(a: Account, prefix: string)
    requires DistinctIds(a.lists) && DistinctIds(a.rules)
    ensures
      var b := LeaveResult(a, prefix);
      LeaveResult(b, prefix) == b.(log := b.log + [RulesGet, ListsGet])
  {
    var pp := PolicyName(prefix);
    LeaveEffect(a, prefix);
    var b := LeaveResult(a, prefix);
    PrefixedIdempotent(a.rules, pp);
    PrefixedIdempotent(a.lists, prefix);
    var b1 := Step(b, RulesGet);
    StepsOne(b, RulesGet);
    assert [RulesGet] + RuleDeletes(Prefixed(b.rules, pp)) == [RulesGet];
    assert [ListsGet] + ListDeletes(Prefixed(b1.lists, prefix)) == [ListsGet];
    StepsOne(b1, ListsGet);
  }

  // ---------------------------------------------------------------------
  // The two narrowings the program relies on, shown on small accounts
  // ---------------------------------------------------------------------

  /** The fast path trusts the count: an owned list holding a different
      domain, but as many domains as asked for, is kept as it is. */
  lemma StaleListKept(prefix: string)
    ensures
      var stale := Resource(0, ListName(prefix, 1), ListData(1, ["old.example"]));
      var a := Account([stale], [], 1, []);
      var (r, outcome) := RunResult(a, prefix, ["new.example"]);
      && outcome == PolicyCreated
      && r.lists == [stale]
      && r.rules == [NewRule(1, CreatePolicyBody(PolicyName(prefix), [0]))]
  {
    var stale := Resource(0, ListName(prefix, 1), ListData(1, ["old.example"]));
    var a := Account([stale], [], 1, []);
    assert Prefixed([stale], prefix) == [stale];
    assert SumCounts([stale]) == 1;
    assert IdList([stale]) == [0];
    FastPathEffect(a, prefix, ["new.example"]);
  }

  /** Up to 1000 domains make one list. */
  lemma ChunkListSmall(domains: seq<string>)
    requires 0 < |domains| <= ChunkSize
    ensures ChunkList(domains, ChunkSize) == [domains]
  {
    assert ChunksFrom(domains, ChunkSize, |domains|) == [];
    assert domains[0..|domains|] == domains;
  }

  /** One chunk makes one list, in slot 1, under the next id. */
  lemma NewListsOne(prefix: string, chunk: seq<string>, first: Id)
    ensures NewLists(prefix, [chunk], first) == [Resource(first, ListName(prefix, 1), ListData(|chunk|, chunk))]
  {
  }

  /** The rule `<prefix> Allow` is no policy to delete, but it is the one
      rule the policy step finds under the name prefix. */
  lemma BroadRuleFound(prefix: string, ids: seq<Id>)
    ensures
      var other := Resource(0, prefix + " Allow", CreatePolicyBody(prefix + " Allow", []));
      var pp := PolicyName(prefix);
      forall id: Id :: PolicyRules(Unprefixed([other], pp), prefix, id, ids) == [Resource(0, pp, UpdatePolicyBody(pp, ids))]
  {
    var pp := PolicyName(prefix);
    var other := Resource(0, prefix + " Allow", CreatePolicyBody(prefix + " Allow", []));
    StartsWithAppend(prefix, " Allow");
    assert |other.name| < |pp|;
    assert Unprefixed([other], pp) == [other];
    assert Prefixed([other], prefix) == [other];
  }

  /** The resync deletes rules under the policy name but then looks under
      the broader name prefix: a rule `<prefix> Allow` survives the delete,
      is found as the one policy, and is overwritten with the blocking
      policy under its own id. */
  lemma BroadRuleTakenOver(prefix: string)
    ensures
      var other := Resource(0, prefix + " Allow", CreatePolicyBody(prefix + " Allow", []));
      var a := Account([], [other], 1, []);
      var (r, outcome) := RunResult(a, prefix, ["ads.example"]);
      && outcome == Resynced
      && r.lists == [Resource(1, ListName(prefix, 1), ListData(1, ["ads.example"]))]
      && r.rules == [Resource(0, PolicyName(prefix), UpdatePolicyBody(PolicyName(prefix), [1]))]
  {
    var other := Resource(0, prefix + " Allow", CreatePolicyBody(prefix + " Allow", []));
    var a := Account([], [other], 1, []);
    var domains := ["ads.example"];
    ChunkListSmall(domains);
    NewListsOne(prefix, domains, 1);
    assert IdList(NewLists(prefix, [domains], 1)) == [1];
    BroadRuleFound(prefix, [1]);
    ResyncLists(a, prefix, domains);
    ResyncRules(a, prefix, domains);
    ResyncOutcome(a, prefix, domains);
  }

  // ---------------------------------------------------------------------
  // The manager
  // ---------------------------------------------------------------------

  class CloudflareManager {
    const adlistName: string
    const namePrefix: string
    /** The gateway account. */
    const remote: RemoteStore

    constructor (adlistName: string, remote: RemoteStore)
      ensures this.adlistName == adlistName && this.remote == remote
      ensures namePrefix == NamePrefix(adlistName)
    {
      this.adlistName := adlistName;
      this.remote := remote;
      namePrefix := NamePrefix(adlistName);
    }

    /** `run`, from the normalised domains on. */
    method Run(domains: seq<string>) returns (outcome: Outcome)
      modifies remote
      ensures (remote.Snapshot(), outcome) == RunResult(old(remote.Snapshot()), namePrefix, domains)
      ensures |domains| == 0 || |domains| > DomainLimit ==> remote.Snapshot() == old(remote.Snapshot())
    {
      if |domains| == 0 {
        return NoDomains;
      }
      if |domains| > DomainLimit {
        return TooManyDomains;
      }
      // check if the lists are already in the account
      var listing := remote.FetchLists();
      var cfLists := GetLists(listing, namePrefix);
      ghost var a1 := remote.Snapshot();

      if |domains| == SumCounts(cfLists) {
        var rules := remote.FetchRules();
        var cfPolicies := GetFirewallPolicies(rules, namePrefix);
        if |cfPolicies| == 0 {
          var _ := remote.CreateRule(CreatePolicyBody(PolicyName(namePrefix), IdList(cfLists)));
          return PolicyCreated;
        }
        return PolicyExists;
      }

      // delete the policies under the policy name, then the owned lists
      var policyPrefix := PolicyName(namePrefix);
      var rules := remote.FetchRules();
      var firewallPolicies := GetFirewallPolicies(rules, policyPrefix);
      DeletePolicies(firewallPolicies);
      DeleteLists(cfLists);
      ghost var a2 := remote.Snapshot();
      StepsOne(a1, RulesGet);
      StepsAppend(a1, [RulesGet], RuleDeletes(firewallPolicies));
      StepsAppend(a1, [RulesGet] + RuleDeletes(firewallPolicies), ListDeletes(cfLists));

      // one list per chunk
      var chunks := ChunkList(domains, ChunkSize);
      var created := CreateLists(chunks);
      var again := remote.FetchRules();
      StepsOne(Steps(a2, ListPosts(namePrefix, chunks)), RulesGet);
      StepsAppend(a2, ListPosts(namePrefix, chunks), [RulesGet]);

      // the policy step, over the rules under the name prefix
      var cfPolicies := GetFirewallPolicies(again, namePrefix);
      var ids := IdList(created);
      if |cfPolicies| == 0 {
        var _ := remote.CreateRule(CreatePolicyBody(policyPrefix, ids));
        outcome := Resynced;
      } else if |cfPolicies| != 1 {
        outcome := MultiplePolicies;
      } else {
        remote.UpdateRule(cfPolicies[0].id, UpdatePolicyBody(policyPrefix, ids));
        outcome := Resynced;
      }
    }

    /** Deletes the given rules one by one, in order. */
    method DeletePolicies(policies: seq<RuleRes>)
      modifies remote
      ensures remote.Snapshot() == Steps(old(remote.Snapshot()), RuleDeletes(policies))
    {
      ghost var a0 := remote.Snapshot();
      for i := 0 to |policies|
        invariant remote.Snapshot() == Steps(a0, RuleDeletes(policies[..i]))
      {
        remote.DeleteRule(policies[i].id);
        assert RuleDeletes(policies[..i + 1]) == RuleDeletes(policies[..i]) + [RuleDelete(policies[i].id)];
        StepsAppend(a0, RuleDeletes(policies[..i]), [RuleDelete(policies[i].id)]);
        StepsOne(Steps(a0, RuleDeletes(policies[..i])), RuleDelete(policies[i].id));
      }
      assert policies[..|policies|] == policies;
    }

    /** Deletes the given lists one by one, in order. */
    method DeleteLists(lists: seq<ListRes>)
      modifies remote
      ensures remote.Snapshot() == Steps(old(remote.Snapshot()), ListDeletes(lists))
    {
      ghost var a0 := remote.Snapshot();
      for i := 0 to |lists|
        invariant remote.Snapshot() == Steps(a0, ListDeletes(lists[..i]))
      {
        remote.DeleteList(lists[i].id);
        assert ListDeletes(lists[..i + 1]) == ListDeletes(lists[..i]) + [ListDelete(lists[i].id)];
        StepsAppend(a0, ListDeletes(lists[..i]), [ListDelete(lists[i].id)]);
        StepsOne(Steps(a0, ListDeletes(lists[..i])), ListDelete(lists[i].id));
      }
      assert lists[..|lists|] == lists;
    }

    /** Creates one list per chunk, named by its slot, and returns them in
        creation order. */
    method CreateLists(chunks: seq<seq<string>>) returns (created: seq<ListRes>)
      modifies remote
      ensures created == NewLists(namePrefix, chunks, old(remote.nextId))
      ensures remote.Snapshot() == Steps(old(remote.Snapshot()), ListPosts(namePrefix, chunks))
    {
      ghost var a0 := remote.Snapshot();
      ghost var bodies := ListBodies(namePrefix, chunks);
      created := [];
      for i := 0 to |chunks|
        invariant created == PostedLists(bodies[..i], a0.nextId)
        invariant remote.nextId == a0.nextId + i
        invariant remote.Snapshot() == Steps(a0, ListPostCalls(bodies[..i]))
      {
        assert |created| == i;
        var listName := ListName(namePrefix, |created| + 1);
        assert listName == ListName(namePrefix, i + 1);
        var body := CreateListBody(listName, chunks[i]);
        assert body == bodies[i];
        ghost var a := remote.Snapshot();
        ListPostCallsStep(a0, bodies, i, a);
        var list := remote.CreateList(body);
        assert list.id == a0.nextId + i;
        assert list == NewList(a0.nextId + i, bodies[i]);
        created := created + [list];
      }
      assert bodies[..|chunks|] == bodies;
    }

    /** `leave`: delete the policies under the policy name, then the lists
        under the name prefix. */
    method Leave()
      modifies remote
      ensures remote.Snapshot() == LeaveResult(old(remote.Snapshot()), namePrefix)
    {
      ghost var a0 := remote.Snapshot();
      var policyPrefix := PolicyName(namePrefix);
      var rules := remote.FetchRules();
      var firewallPolicies := GetFirewallPolicies(rules, policyPrefix);
      DeletePolicies(firewallPolicies);
      StepsOne(a0, RulesGet);
      StepsAppend(a0, [RulesGet], RuleDeletes(firewallPolicies));

      ghost var a1 := remote.Snapshot();
      var lists := remote.FetchLists();
      var cfLists := GetLists(lists, namePrefix);
      DeleteLists(cfLists);
      StepsOne(a1, ListsGet);
      StepsAppend(a1, [ListsGet], ListDeletes(cfLists));
    }
  }
}

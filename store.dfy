/** The gateway account as the program sees it through `send_request`: a
    collection of lists and a collection of rules (policies). Only the
    behaviour the program relies on is assumed: a create appends a resource
    with a fresh id, a delete removes the resource with that id, an update
    replaces the rule with that id, and a listing returns everything in
    order. The store records every call it receives. */
module Remote {
  import opened Wrappers
  import opened Strings
  import opened Cloudflare

  type ListRes = Resource<ListData>
  type RuleRes = Resource<PolicyBody>

  /** One call to the API. */
  datatype Call =
    | ListsGet
    | RulesGet
    | ListPost(list: ListBody)
    | ListDelete(listId: Id)
    | RulePost(rule: PolicyBody)
    | RulePut(ruleId: Id, rule: PolicyBody)
    | RuleDelete(ruleId: Id)
  {
    /** Whether the call changes the account. */
    predicate Mutates() {
      !ListsGet? && !RulesGet?
    }
  }

  /** The `send_request(method, endpoint, body)` a call is made with. */
  function RequestOf(c: Call): Request {
    match c
    case ListsGet => GetListsRequest()
    case RulesGet => GetRulesRequest()
    case ListPost(body) => Request(Post, ListsPath, ListPayload(body))
    case ListDelete(id) => Request(Delete, ListsPath + "/" + Decimal(id), NoPayload)
    case RulePost(body) => Request(Post, RulesPath, PolicyPayload(body))
    case RulePut(id, body) => Request(Put, RulesPath + "/" + Decimal(id), PolicyPayload(body))
    case RuleDelete(id) => DeletePolicyRequest(id)
  }

  /** Each call the store receives is the request the client functions
      build, whatever name is passed along. */
  lemma RequestOfAgrees(name: string, domains: seq<string>, id: Id, listIds: seq<Id>)
    ensures RequestOf(ListsGet) == GetListsRequest()
    ensures RequestOf(RulesGet) == GetRulesRequest()
    ensures RequestOf(ListPost(CreateListBody(name, domains))) == CreateListRequest(name, domains)
    ensures RequestOf(ListDelete(id)) == DeleteListRequest(name, id)
    ensures RequestOf(RulePost(CreatePolicyBody(name, listIds))) == CreatePolicyRequest(name, listIds)
    ensures RequestOf(RulePut(id, UpdatePolicyBody(name, listIds))) == UpdatePolicyRequest(name, id, listIds)
    ensures RequestOf(RuleDelete(id)) == DeletePolicyRequest(id)
  {
  }

  /** A call changes the account exactly when its verb is not GET; a list
      delete names its list id under `gateway/lists`, a rule update or
      delete names its rule id under `gateway/rules`, and no other call
      names a resource. */
  lemma RequestOfTargets(c: Call)
    ensures c.Mutates() <==> RequestOf(c).verb != Get
    ensures TargetId(RequestOf(c).path, ListsPath) == if c.ListDelete? then Some(c.listId) else None
    ensures TargetId(RequestOf(c).path, RulesPath)
            == if c.RulePut? || c.RuleDelete? then Some(c.ruleId) else None
  {
    var path := RequestOf(c).path;
    match c
    case ListDelete(id) =>
      RequestTargets("", id, 0, []);
      assert path == DeleteListRequest("", id).path;
    case RulePut(id, _) =>
      RequestTargets("", 0, id, []);
      assert path == DeletePolicyRequest(id).path;
    case RuleDelete(id) =>
      RequestTargets("", 0, id, []);
    case _ =>
      assert path == ListsPath || path == RulesPath;
      assert |path| < |ListsPath + "/"| && |path| < |RulesPath + "/"|;
  }

  predicate IdsBelow<D>(xs: seq<Resource<D>>, bound: nat) {
    forall i :: 0 <= i < |xs| ==> xs[i].id < bound
  }

  predicate DistinctIds<D>(xs: seq<Resource<D>>) {
    forall i, j :: 0 <= i < j < |xs| ==> xs[i].id != xs[j].id
  }

  function IdsOf<D>(xs: seq<Resource<D>>): set<Id> {
    set i | 0 <= i < |xs| :: xs[i].id
  }

  /** The ids of `xs`, in order (`[l["id"] for l in xs]`). */
  function IdList<D>(xs: seq<Resource<D>>): (r: seq<Id>)
    ensures |r| == |xs|
    ensures forall i :: 0 <= i < |xs| ==> r[i] == xs[i].id
  {
    seq(|xs|, i requires 0 <= i < |xs| => xs[i].id)
  }

  /** `xs` without the resources whose id is in `ids`. */
  function WithoutIds<D>(xs: seq<Resource<D>>, ids: set<Id>): (r: seq<Resource<D>>)
    ensures |r| <= |xs|
  {
    if xs == [] then []
    else (if xs[0].id in ids then [] else [xs[0]]) + WithoutIds(xs[1..], ids)
  }

  /** `rules` with the rule whose id is `id` replaced by `body`. */
  function ReplaceRule(rules: seq<RuleRes>, id: Id, body: PolicyBody): (r: seq<RuleRes>)
    ensures |r| == |rules|
    ensures forall i :: 0 <= i < |rules| ==> r[i].id == rules[i].id
  {
    seq(|rules|, i requires 0 <= i < |rules| =>
      if rules[i].id == id then Resource(id, body.name, body) else rules[i])
  }

  lemma {:induction false} WithoutIdsMembers<D>(xs: seq<Resource<D>>, ids: set<Id>, x: Resource<D>)
    ensures x in WithoutIds(xs, ids) <==> x in xs && x.id !in ids
  {
    if xs != [] {
      WithoutIdsMembers(xs[1..], ids, x);
      assert xs == [xs[0]] + xs[1..];
    }
  }

  /** Removing ids keeps the bound and the distinctness of the rest. */
  lemma {:induction false} WithoutIdsValid<D>(xs: seq<Resource<D>>, ids: set<Id>, bound: nat)
    requires IdsBelow(xs, bound) && DistinctIds(xs)
    ensures IdsBelow(WithoutIds(xs, ids), bound) && DistinctIds(WithoutIds(xs, ids))
  {
    if xs != [] {
      WithoutIdsValid(xs[1..], ids, bound);
      var rest := WithoutIds(xs[1..], ids);
      forall x | x in rest ensures x.id != xs[0].id {
        WithoutIdsMembers(xs[1..], ids, x);
      }
    }
  }

  /** Removing one more id after a set of ids is removing both. */
  lemma {:induction false} WithoutIdsStep<D>(xs: seq<Resource<D>>, ids: set<Id>, id: Id)
    ensures WithoutIds(WithoutIds(xs, ids), {id}) == WithoutIds(xs, ids + {id})
  {
    if xs != [] {
      WithoutIdsStep(xs[1..], ids, id);
      var h := if xs[0].id in ids then [] else [xs[0]];
      WithoutIdsAppend(h, WithoutIds(xs[1..], ids), {id});
      if xs[0].id !in ids {
        assert h[1..] == [];
      }
    }
  }

  lemma {:induction false} WithoutIdsAppend<D>(a: seq<Resource<D>>, b: seq<Resource<D>>, ids: set<Id>)
    ensures WithoutIds(a + b, ids) == WithoutIds(a, ids) + WithoutIds(b, ids)
  {
    if a == [] {
      assert a + b == b;
    } else {
      assert (a + b)[1..] == a[1..] + b;
      WithoutIdsAppend(a[1..], b, ids);
    }
  }

  lemma IdsOfMember<D>(xs: seq<Resource<D>>, x: Resource<D>)
    requires x in xs
    ensures x.id in IdsOf(xs)
  {
    var i :| 0 <= i < |xs| && xs[i] == x;
  }

  lemma IdsOfAppend<D>(a: seq<Resource<D>>, b: seq<Resource<D>>)
    ensures IdsOf(a + b) == IdsOf(a) + IdsOf(b)
  {
    forall id | id in IdsOf(a) + IdsOf(b) ensures id in IdsOf(a + b) {
      if id in IdsOf(a) {
        var i :| 0 <= i < |a| && a[i].id == id;
        assert (a + b)[i] == a[i];
      } else {
        var i :| 0 <= i < |b| && b[i].id == id;
        assert (a + b)[|a| + i] == b[i];
      }
    }
  }

  /** Deleting, by id, every resource a prefix filter kept leaves exactly the
      resources the filter dropped, provided ids are distinct. */
  lemma DeletePrefixed<D>(xs: seq<Resource<D>>, prefix: string)
    requires DistinctIds(xs)
    ensures WithoutIds(xs, IdsOf(Prefixed(xs, prefix))) == Unprefixed(xs, prefix)
  {
    DeletePrefixedWith(xs, prefix, {});
    assert IdsOf(Prefixed(xs, prefix)) + {} == IdsOf(Prefixed(xs, prefix));
  }

  lemma {:induction false} DeletePrefixedWith<D>(xs: seq<Resource<D>>, prefix: string, extra: set<Id>)
    requires DistinctIds(xs)
    requires extra !! IdsOf(xs)
    ensures WithoutIds(xs, IdsOf(Prefixed(xs, prefix)) + extra) == Unprefixed(xs, prefix)
  {
    if xs != [] {
      var h, t := xs[0], xs[1..];
      assert xs == [h] + t;
      var kept := Prefixed(t, prefix);
      IdsOfAppend([h], t);
      assert h.id !in IdsOf(t);
      assert IdsOf(kept) <= IdsOf(t) by {
        forall i | 0 <= i < |kept| ensures kept[i].id in IdsOf(t) {
          PrefixedMembers(t, prefix, kept[i]);
          IdsOfMember(t, kept[i]);
        }
      }
      if StartsWith(h.name, prefix) {
        assert Prefixed(xs, prefix) == [h] + kept;
        IdsOfAppend([h], kept);
        assert IdsOf([h]) == {h.id};
        DeletePrefixedWith(t, prefix, extra + {h.id});
        assert IdsOf(Prefixed(xs, prefix)) + extra == IdsOf(kept) + (extra + {h.id});
      } else {
        assert Prefixed(xs, prefix) == kept;
        DeletePrefixedWith(t, prefix, extra);
      }
    }
  }

  /** A snapshot of the account together with every call it has received,
      oldest first. */
  datatype Account = Account(lists: seq<ListRes>, rules: seq<RuleRes>, nextId: nat, log: seq<Call>)

  /** Ids are distinct within each collection, and every id in use is below
      `nextId`. */
  predicate Consistent(a: Account) {
    IdsBelow(a.lists, a.nextId) && IdsBelow(a.rules, a.nextId) && DistinctIds(a.lists) && DistinctIds(a.rules)
  }

  /** The list a `POST gateway/lists` with `body` creates under `id`. */
  function NewList(id: Id, body: ListBody): ListRes {
    Resource(id, body.name, ListData(|body.items|, ItemValues(body.items)))
  }

  /** The rule a `POST gateway/rules` with `body` creates under `id`. */
  function NewRule(id: Id, body: PolicyBody): RuleRes {
    Resource(id, body.name, body)
  }

  /** What one call does to the account: a listing changes nothing, a create
      appends a resource under a fresh id, a delete removes the resource with
      that id, an update replaces the rule with that id. */
  function Step(a: Account, c: Call): (r: Account)
    ensures r.log == a.log + [c]
    ensures !c.Mutates() ==> r == a.(log := a.log + [c])
  {
    var log := a.log + [c];
    match c
    case ListsGet => a.(log := log)
    case RulesGet => a.(log := log)
    case ListPost(body) => Account(a.lists + [NewList(a.nextId, body)], a.rules, a.nextId + 1, log)
    case ListDelete(id) => a.(lists := WithoutIds(a.lists, {id}), log := log)
    case RulePost(body) => Account(a.lists, a.rules + [NewRule(a.nextId, body)], a.nextId + 1, log)
    case RulePut(id, body) => a.(rules := ReplaceRule(a.rules, id, body), log := log)
    case RuleDelete(id) => a.(rules := WithoutIds(a.rules, {id}), log := log)
  }

  /** The calls `cs` received one after the other. */
  function Steps(a: Account, cs: seq<Call>): (r: Account)
    ensures r.log == a.log + cs
    decreases |cs|
  {
    if cs == [] then a else Steps(Step(a, cs[0]), cs[1..])
  }

  lemma {:induction false} StepsAppend(a: Account, xs: seq<Call>, ys: seq<Call>)
    ensures Steps(a, xs + ys) == Steps(Steps(a, xs), ys)
    decreases |xs|
  {
    if xs == [] {
      assert xs + ys == ys;
    } else {
      assert (xs + ys)[1..] == xs[1..] + ys;
      StepsAppend(Step(a, xs[0]), xs[1..], ys);
    }
  }

  lemma StepsOne(a: Account, c: Call)
    ensures Steps(a, [c]) == Step(a, c)
  {
    assert [c][1..] == [];
  }

  /** One list-creating call per body, in order. */
  function ListPostCalls(bodies: seq<ListBody>): (r: seq<Call>)
    ensures |r| == |bodies|
  {
    seq(|bodies|, k requires 0 <= k < |bodies| => ListPost(bodies[k]))
  }

  /** The lists those calls create when the account's next id is `first`:
      body `k` becomes the list with id `first + k`. */
  function PostedLists(bodies: seq<ListBody>, first: Id): (r: seq<ListRes>)
    ensures |r| == |bodies|
  {
    seq(|bodies|, k requires 0 <= k < |bodies| => NewList(first + k, bodies[k]))
  }

  lemma PostedListsSnoc(bodies: seq<ListBody>, i: nat, first: Id)
    requires i < |bodies|
    ensures PostedLists(bodies[..i + 1], first) == PostedLists(bodies[..i], first) + [NewList(first + i, bodies[i])]
  {
  }

  lemma ListPostCallsSnoc(bodies: seq<ListBody>, i: nat)
    requires i < |bodies|
    ensures ListPostCalls(bodies[..i + 1]) == ListPostCalls(bodies[..i]) + [ListPost(bodies[i])]
  {
  }

  /** One more list-creating call extends both the calls and the lists
      created by one. */
  lemma ListPostCallsStep(a0: Account, bodies: seq<ListBody>, i: nat, a: Account)
    requires i < |bodies|
    requires a == Steps(a0, ListPostCalls(bodies[..i])) && a.nextId == a0.nextId + i
    ensures Step(a, ListPost(bodies[i])) == Steps(a0, ListPostCalls(bodies[..i + 1]))
    ensures PostedLists(bodies[..i], a0.nextId) + [NewList(a0.nextId + i, bodies[i])] == PostedLists(bodies[..i + 1], a0.nextId)
  {
    PostedListsSnoc(bodies, i, a0.nextId);
    ListPostCallsSnoc(bodies, i);
    StepsAppend(a0, ListPostCalls(bodies[..i]), [ListPost(bodies[i])]);
    StepsOne(a, ListPost(bodies[i]));
  }

  /** Creating lists one by one appends them in order under consecutive
      fresh ids, and touches nothing else. */
  lemma {:induction false} ListPostCallsEffect(a: Account, bodies: seq<ListBody>)
    ensures Steps(a, ListPostCalls(bodies))
         == a.(lists := a.lists + PostedLists(bodies, a.nextId), nextId := a.nextId + |bodies|,
               log := a.log + ListPostCalls(bodies))
    decreases |bodies|
  {
    if bodies == [] {
      assert a.lists + PostedLists(bodies, a.nextId) == a.lists;
    } else {
      var n := |bodies| - 1;
      var init := bodies[..n];
      ListPostCallsEffect(a, init);
      var b := Steps(a, ListPostCalls(init));
      assert bodies[..n + 1] == bodies;
      ListPostCallsSnoc(bodies, n);
      PostedListsSnoc(bodies, n, a.nextId);
      StepsAppend(a, ListPostCalls(init), [ListPost(bodies[n])]);
      StepsOne(b, ListPost(bodies[n]));
    }
  }

  /** Every call keeps the account consistent: fresh ids are never in use. */
  lemma StepConsistent(a: Account, c: Call)
    requires Consistent(a)
    ensures Consistent(Step(a, c))
  {
    match c
    case ListDelete(id) => WithoutIdsValid(a.lists, {id}, a.nextId);
    case RuleDelete(id) => WithoutIdsValid(a.rules, {id}, a.nextId);
    case RulePut(id, body) =>
    case _ =>
  }

  lemma {:induction false} StepsConsistent(a: Account, cs: seq<Call>)
    requires Consistent(a)
    ensures Consistent(Steps(a, cs))
    decreases |cs|
  {
    if cs != [] {
      StepConsistent(a, cs[0]);
      StepsConsistent(Step(a, cs[0]), cs[1..]);
    }
  }

  /** The account behind the API. */
  class RemoteStore {
    var lists: seq<ListRes>
    var rules: seq<RuleRes>
    /** The next id the account hands out. */
    var nextId: nat
    /** Every call received, oldest first. */
    ghost var log: seq<Call>

    ghost function Snapshot(): Account
      reads this
    {
      Account(lists, rules, nextId, log)
    }

    /** An account in any state a previous run, a failure or a manual edit
        may have left. */
    constructor (lists: seq<ListRes>, rules: seq<RuleRes>, nextId: nat)
      ensures Snapshot() == Account(lists, rules, nextId, [])
    {
      this.lists := lists;
      this.rules := rules;
      this.nextId := nextId;
      log := [];
    }

    /** `GET gateway/lists`: the response's `result`. */
    method FetchLists() returns (result: Option<seq<ListRes>>)
      modifies this`log
      ensures result == Some(lists)
      ensures Snapshot() == Step(old(Snapshot()), ListsGet)
    {
      result := Some(lists);
      log := log + [ListsGet];
    }

    /** `GET gateway/rules`: the response's `result`. */
    method FetchRules() returns (result: Option<seq<RuleRes>>)
      modifies this`log
      ensures result == Some(rules)
      ensures Snapshot() == Step(old(Snapshot()), RulesGet)
    {
      result := Some(rules);
      log := log + [RulesGet];
    }

    /** `POST gateway/lists`: the new list holds the body's item values. */
    method CreateList(body: ListBody) returns (created: ListRes)
      modifies this`lists, this`nextId, this`log
      ensures created == NewList(old(nextId), body)
      ensures Snapshot() == Step(old(Snapshot()), ListPost(body))
    {
      created := NewList(nextId, body);
      lists := lists + [created];
      nextId := nextId + 1;
      log := log + [ListPost(body)];
    }

    /** `DELETE gateway/lists/{id}` */
    method DeleteList(id: Id)
      modifies this`lists, this`log
      ensures Snapshot() == Step(old(Snapshot()), ListDelete(id))
    {
      lists := WithoutIds(lists, {id});
      log := log + [ListDelete(id)];
    }

    /** `POST gateway/rules` */
    method CreateRule(body: PolicyBody) returns (created: RuleRes)
      modifies this`rules, this`nextId, this`log
      ensures created == NewRule(old(nextId), body)
      ensures Snapshot() == Step(old(Snapshot()), RulePost(body))
    {
      created := NewRule(nextId, body);
      rules := rules + [created];
      nextId := nextId + 1;
      log := log + [RulePost(body)];
    }

    /** `PUT gateway/rules/{id}` */
    method UpdateRule(id: Id, body: PolicyBody)
      modifies this`rules, this`log
      ensures Snapshot() == Step(old(Snapshot()), RulePut(id, body))
    {
      rules := ReplaceRule(rules, id, body);
      log := log + [RulePut(id, body)];
    }

    /** `DELETE gateway/rules/{id}` */
    method DeleteRule(id: Id)
      modifies this`rules, this`log
      ensures Snapshot() == Step(old(Snapshot()), RuleDelete(id))
    {
      rules := WithoutIds(rules, {id});
      log := log + [RuleDelete(id)];
    }
  }
}

/** `src/cloudflare.py`: what the gateway client asks of the API. The
    transport (`send_request`, retries, rate limiting) is not modelled; what
    is left is pure: which resources a listing keeps, and which request, with
    which body, each call sends. */
module Cloudflare {
  import opened Wrappers
  import opened Strings

  /** Resource ids. The API hands out opaque strings; the model numbers the
      resources it creates and writes an id into a request as its decimal
      text. */
  type Id = nat

  /** A gateway list or rule as a listing returns it. */
  datatype Resource<D> = Resource(id: Id, name: string, data: D)

  /** What a list holds: its `count` field and its items. */
  datatype ListData = ListData(count: nat, items: seq<string>)

  // ---------------------------------------------------------------------
  // Listings filtered by name prefix (`get_lists`, `get_firewall_policies`)
  // ---------------------------------------------------------------------

  /** `[l for l in xs if l["name"].startswith(prefix)]` */
  function Prefixed<D>(xs: seq<Resource<D>>, prefix: string): (r: seq<Resource<D>>)
    ensures |r| <= |xs|
  {
    if xs == [] then []
    else (if StartsWith(xs[0].name, prefix) then [xs[0]] else []) + Prefixed(xs[1..], prefix)
  }

  /** The resources a prefix filter drops: the ones whose name does not
      start with the prefix. */
  function Unprefixed<D>(xs: seq<Resource<D>>, prefix: string): (r: seq<Resource<D>>)
    ensures |r| <= |xs|
  {
    if xs == [] then []
    else (if StartsWith(xs[0].name, prefix) then [] else [xs[0]]) + Unprefixed(xs[1..], prefix)
  }

  /** A filter keeps exactly the resources whose name starts with the
      prefix; its complement keeps exactly the others. */
  lemma {:induction false} PrefixedMembers<D>(xs: seq<Resource<D>>, prefix: string, x: Resource<D>)
    ensures x in Prefixed(xs, prefix) <==> x in xs && StartsWith(x.name, prefix)
    ensures x in Unprefixed(xs, prefix) <==> x in xs && !StartsWith(x.name, prefix)
  {
    if xs != [] {
      PrefixedMembers(xs[1..], prefix, x);
      assert xs == [xs[0]] + xs[1..];
    }
  }

  /** Filtering keeps the response order: the filter of a concatenation is
      the concatenation of the filters. */
  lemma {:induction false} PrefixedAppend<D>(a: seq<Resource<D>>, b: seq<Resource<D>>, prefix: string)
    ensures Prefixed(a + b, prefix) == Prefixed(a, prefix) + Prefixed(b, prefix)
    ensures Unprefixed(a + b, prefix) == Unprefixed(a, prefix) + Unprefixed(b, prefix)
  {
    if a == [] {
      assert a + b == b;
    } else {
      var ab := a + b;
      assert ab[0] == a[0];
      assert ab[1..] == a[1..] + b;
      PrefixedAppend(a[1..], b, prefix);
      var h := if StartsWith(a[0].name, prefix) then [a[0]] else [];
      var g := if StartsWith(a[0].name, prefix) then [] else [a[0]];
      calc {
        Prefixed(ab, prefix);
        h + Prefixed(ab[1..], prefix);
        h + (Prefixed(a[1..], prefix) + Prefixed(b, prefix));
        (h + Prefixed(a[1..], prefix)) + Prefixed(b, prefix);
      }
      calc {
        Unprefixed(ab, prefix);
        g + Unprefixed(ab[1..], prefix);
        g + (Unprefixed(a[1..], prefix) + Unprefixed(b, prefix));
        (g + Unprefixed(a[1..], prefix)) + Unprefixed(b, prefix);
      }
    }
  }

  /** The kept and the dropped resources together are the listing, each
      resource exactly as often as it was listed. */
  lemma {:induction false} PrefixedPartition<D>(xs: seq<Resource<D>>, prefix: string)
    ensures multiset(Prefixed(xs, prefix)) + multiset(Unprefixed(xs, prefix)) == multiset(xs)
  {
    if xs != [] {
      var rest := xs[1..];
      PrefixedPartition(rest, prefix);
      assert xs == [xs[0]] + rest;
      if StartsWith(xs[0].name, prefix) {
        assert Prefixed(xs, prefix) == [xs[0]] + Prefixed(rest, prefix);
        assert Unprefixed(xs, prefix) == [] + Unprefixed(rest, prefix);
      } else {
        assert Prefixed(xs, prefix) == [] + Prefixed(rest, prefix);
        assert Unprefixed(xs, prefix) == [xs[0]] + Unprefixed(rest, prefix);
      }
    }
  }

  /** Filtering a filtered listing again changes nothing, and nothing that
      a filter dropped passes it. */
  lemma {:induction false} PrefixedIdempotent<D>(xs: seq<Resource<D>>, prefix: string)
    ensures Prefixed(Prefixed(xs, prefix), prefix) == Prefixed(xs, prefix)
    ensures Prefixed(Unprefixed(xs, prefix), prefix) == []
    ensures Unprefixed(Unprefixed(xs, prefix), prefix) == Unprefixed(xs, prefix)
  {
    if xs != [] {
      PrefixedIdempotent(xs[1..], prefix);
      var h := [xs[0]];
      if StartsWith(xs[0].name, prefix) {
        PrefixedAppend(h, Prefixed(xs[1..], prefix), prefix);
        assert h[1..] == [];
        PrefixedAppend(Unprefixed(h, prefix), Unprefixed(xs[1..], prefix), prefix);
      } else {
        PrefixedAppend(h, Unprefixed(xs[1..], prefix), prefix);
        assert h[1..] == [];
        PrefixedAppend(Prefixed(h, prefix), Prefixed(xs[1..], prefix), prefix);
      }
    }
  }

  /** `get_lists(prefix)` on a response whose `result` is `result`; a null
      `result` reads as no lists. */
  function GetLists(result: Option<seq<Resource<ListData>>>, prefix: string): (r: seq<Resource<ListData>>)
    ensures result.None? ==> r == []
    ensures forall x :: x in r <==> result.Some? && x in result.value && StartsWith(x.name, prefix)
  {
    var xs := result.GetOr([]);
    forall x ensures x in Prefixed(xs, prefix) <==> x in xs && StartsWith(x.name, prefix) {
      PrefixedMembers(xs, prefix, x);
    }
    Prefixed(xs, prefix)
  }

  /** `get_firewall_policies(prefix)`: the same filter over gateway rules. */
  function GetFirewallPolicies(result: Option<seq<Resource<PolicyBody>>>, prefix: string): (r: seq<Resource<PolicyBody>>)
    ensures result.None? ==> r == []
    ensures forall x :: x in r <==> result.Some? && x in result.value && StartsWith(x.name, prefix)
  {
    var xs := result.GetOr([]);
    forall x ensures x in Prefixed(xs, prefix) <==> x in xs && StartsWith(x.name, prefix) {
      PrefixedMembers(xs, prefix, x);
    }
    Prefixed(xs, prefix)
  }

  // ---------------------------------------------------------------------
  // Request bodies
  // ---------------------------------------------------------------------

  datatype Item = Item(value: string)

  /** The body of `POST gateway/lists`. */
  datatype ListBody = ListBody(name: string, description: string, kind: string, items: seq<Item>)

  /** The body of `POST gateway/rules` and `PUT gateway/rules/{id}`. */
  datatype PolicyBody = PolicyBody(
    name: string,
    description: string,
    action: string,
    enabled: bool,
    filters: seq<string>,
    traffic: string,
    blockPageEnabled: bool)

  /** `[{"value": domain} for domain in domains]` */
  function Items(domains: seq<string>): (r: seq<Item>)
    ensures |r| == |domains|
  {
    seq(|domains|, i requires 0 <= i < |domains| => Item(domains[i]))
  }

  /** The values of a list's items, in order. */
  function ItemValues(items: seq<Item>): (r: seq<string>)
    ensures |r| == |items|
  {
    seq(|items|, i requires 0 <= i < |items| => items[i].value)
  }

  /** The body `create_list(name, domains)` sends. */
  function CreateListBody(name: string, domains: seq<string>): (b: ListBody)
    ensures b.name == name && b.kind == "DOMAIN"
    ensures |b.items| == |domains|
  {
    ListBody(name, "Ads & Tracking Domains", "DOMAIN", Items(domains))
  }

  /** The list body carries one item per domain, in input order: reading the
      item values back gives the domains. */
  lemma ListBodyRoundTrip(name: string, domains: seq<string>)
    ensures ItemValues(CreateListBody(name, domains).items) == domains
  {
    var items := CreateListBody(name, domains).items;
    assert forall i :: 0 <= i < |domains| ==> ItemValues(items)[i] == domains[i];
  }

  /** The text before the list id in one traffic segment. */
  const SegmentHead: string := "any(dns.domains[*] in $"

  /** `f"any(dns.domains[*] in ${l})"` */
  function Segment(id: Id): string {
    SegmentHead + Decimal(id) + ")"
  }

  function Segments(ids: seq<Id>): (r: seq<string>)
    ensures |r| == |ids|
    ensures forall i :: 0 <= i < |ids| ==> r[i] == Segment(ids[i])
  {
    if ids == [] then [] else [Segment(ids[0])] + Segments(ids[1..])
  }

  /** `"or".join(segments)`: the segments glued with a bare `or`, without
      spaces. */
  function Traffic(ids: seq<Id>): (r: string)
    ensures ids == [] ==> r == ""
    ensures |ids| == 1 ==> r == Segment(ids[0])
  {
    Join("or", Segments(ids))
  }

  /** The body `create_gateway_policy(name, list_ids)` sends. */
  function CreatePolicyBody(name: string, listIds: seq<Id>): (b: PolicyBody)
    ensures b.name == name && b.action == "block" && b.enabled && b.filters == ["dns"] && !b.blockPageEnabled
  {
    PolicyBody(
      name := name,
      description := "Block Ads & Tracking",
      action := "block",
      enabled := true,
      filters := ["dns"],
      traffic := Traffic(listIds),
      blockPageEnabled := false)
  }

  /** The body `update_gateway_policy(name, policy_id, list_ids)` sends; the
      source writes it out a second time. */
  function UpdatePolicyBody(name: string, listIds: seq<Id>): (b: PolicyBody)
    ensures b.name == name && b.action == "block" && b.enabled && b.filters == ["dns"] && !b.blockPageEnabled
  {
    PolicyBody(
      name := name,
      description := "Block Ads & Tracking",
      action := "block",
      enabled := true,
      filters := ["dns"],
      traffic := Traffic(listIds),
      blockPageEnabled := false)
  }

  /** Creating and updating a policy send the same body for the same name
      and list ids. */
  lemma CreateAndUpdateAgree(name: string, listIds: seq<Id>)
    ensures CreatePolicyBody(name, listIds) == UpdatePolicyBody(name, listIds)
    ensures CreatePolicyBody(name, listIds).traffic == Traffic(listIds)
  {
  }

  // ---------------------------------------------------------------------
  // Reading a traffic expression back
  // ---------------------------------------------------------------------

  /** The length of the run of digits `s` starts with. */
  function DigitRun(s: string): (n: nat)
    ensures n <= |s| && AllDigits(s[..n])
    ensures n < |s| ==> !IsDigit(s[n])
  {
    if s == [] || !IsDigit(s[0]) then 0
    else
      var n := DigitRun(s[1..]);
      assert s[..n + 1] == [s[0]] + s[1..][..n];
      n + 1
  }

  /** The list ids of a non-empty traffic expression: segments, each
      followed either by the end or by `or` and the next segment. */
  function ParseSegments(t: string): Option<seq<Id>>
    decreases |t|
  {
    if !StartsWith(t, SegmentHead) then None
    else
      var rest := t[|SegmentHead|..];
      var n := DigitRun(rest);
      if n == 0 || n == |rest| || rest[n] != ')' then None
      else
        var id := ParseDecimal(rest[..n]);
        var tail := rest[n + 1..];
        if tail == [] then Some([id])
        else if StartsWith(tail, "or") then
          match ParseSegments(tail[2..])
          case Some(ids) => Some([id] + ids)
          case None => None
        else None
  }

  /** The list ids a traffic expression refers to, in order. */
  function ParseTraffic(t: string): Option<seq<Id>> {
    if t == [] then Some([]) else ParseSegments(t)
  }

  lemma DigitRunOfNumber(d: string, rest: string)
    requires AllDigits(d)
    requires rest != [] && !IsDigit(rest[0])
    ensures DigitRun(d + rest) == |d|
  {
    if d != [] {
      assert (d + rest)[1..] == d[1..] + rest;
      DigitRunOfNumber(d[1..], rest);
    }
  }

  /** The traffic expression determines the list ids it was built from, in
      order: reading it back gives them. */
  lemma {:induction false} TrafficRoundTrip(ids: seq<Id>)
    ensures ParseTraffic(Traffic(ids)) == Some(ids)
  {
    if ids != [] {
      SegmentsRoundTrip(ids);
    }
  }

  lemma {:induction false} SegmentsRoundTrip(ids: seq<Id>)
    requires ids != []
    ensures ParseSegments(Traffic(ids)) == Some(ids)
    decreases |ids|
  {
    assert Segments(ids)[1..] == Segments(ids[1..]);
    if |ids| == 1 {
      ParseSegmentsStep(ids[0], "");
      assert Segment(ids[0]) + "" == Segment(ids[0]);
      assert ids == [ids[0]];
    } else {
      var more := Traffic(ids[1..]);
      assert Traffic(ids) == Segment(ids[0]) + ("or" + more);
      SegmentsRoundTrip(ids[1..]);
      ParseSegmentsStep(ids[0], "or" + more);
      assert ("or" + more)[2..] == more;
      assert ids == [ids[0]] + ids[1..];
    }
  }

  /** Reading one segment followed by `tail`. */
  lemma ParseSegmentsStep(id: Id, tail: string)
    ensures tail == [] ==> ParseSegments(Segment(id) + tail) == Some([id])
    ensures StartsWith(tail, "or") && ParseSegments(tail[2..]).Some? ==>
              ParseSegments(Segment(id) + tail) == Some([id] + ParseSegments(tail[2..]).value)
  {
    var d := Decimal(id);
    var t := Segment(id) + tail;
    assert t == SegmentHead + (d + (")" + tail));
    StartsWithAppend(SegmentHead, d + (")" + tail));
    var rest := t[|SegmentHead|..];
    assert rest == d + (")" + tail);
    DigitRunOfNumber(d, ")" + tail);
    assert rest[..|d|] == d;
    DecimalRoundTrip(id);
    assert rest[|d| + 1..] == tail;
  }

  // ---------------------------------------------------------------------
  // Requests
  // ---------------------------------------------------------------------

  datatype Verb = Get | Post | Put | Delete

  datatype Payload = NoPayload | ListPayload(list: ListBody) | PolicyPayload(policy: PolicyBody)

  /** One `send_request(method, endpoint, body)`. */
  datatype Request = Request(verb: Verb, path: string, payload: Payload)

  const ListsPath: string := "gateway/lists"
  const RulesPath: string := "gateway/rules"

  function GetListsRequest(): Request {
    Request(Get, ListsPath, NoPayload)
  }

  function CreateListRequest(name: string, domains: seq<string>): Request {
    Request(Post, ListsPath, ListPayload(CreateListBody(name, domains)))
  }

  /** `delete_list(name, list_id)`; the name is not sent. */
  function DeleteListRequest(name: string, listId: Id): Request {
    Request(Delete, ListsPath + "/" + Decimal(listId), NoPayload)
  }

  function GetRulesRequest(): Request {
    Request(Get, RulesPath, NoPayload)
  }

  function CreatePolicyRequest(name: string, listIds: seq<Id>): Request {
    Request(Post, RulesPath, PolicyPayload(CreatePolicyBody(name, listIds)))
  }

  function UpdatePolicyRequest(name: string, policyId: Id, listIds: seq<Id>): Request {
    Request(Put, RulesPath + "/" + Decimal(policyId), PolicyPayload(UpdatePolicyBody(name, listIds)))
  }

  function DeletePolicyRequest(policyId: Id): Request {
    Request(Delete, RulesPath + "/" + Decimal(policyId), NoPayload)
  }

  /** The resource a request path names inside `collection`: the path is
      the collection, a slash and the id's digits. */
  function TargetId(path: string, collection: string): Option<Id> {
    var head := collection + "/";
    if StartsWith(path, head) && |path| > |head| && AllDigits(path[|head|..]) then
      Some(ParseDecimal(path[|head|..]))
    else
      None
  }

  lemma TargetOf(collection: string, id: Id)
    ensures TargetId(collection + "/" + Decimal(id), collection) == Some(id)
  {
    StartsWithAppend(collection + "/", Decimal(id));
    assert (collection + "/" + Decimal(id))[|collection + "/"|..] == Decimal(id);
    DecimalRoundTrip(id);
  }

  /** The request targets: an update is a PUT on `gateway/rules/{policy_id}`,
      a list delete a DELETE on `gateway/lists/{list_id}`, a policy delete a
      DELETE on `gateway/rules/{policy_id}`; none of them names a resource of
      the other collection. */
  lemma RequestTargets(name: string, listId: Id, policyId: Id, listIds: seq<Id>)
    ensures UpdatePolicyRequest(name, policyId, listIds).verb == Put
    ensures TargetId(UpdatePolicyRequest(name, policyId, listIds).path, RulesPath) == Some(policyId)
    ensures DeleteListRequest(name, listId).verb == Delete
    ensures TargetId(DeleteListRequest(name, listId).path, ListsPath) == Some(listId)
    ensures TargetId(DeleteListRequest(name, listId).path, RulesPath) == None
    ensures DeletePolicyRequest(policyId).verb == Delete
    ensures TargetId(DeletePolicyRequest(policyId).path, RulesPath) == Some(policyId)
    ensures TargetId(DeletePolicyRequest(policyId).path, ListsPath) == None
  {
    TargetOf(RulesPath, policyId);
    TargetOf(ListsPath, listId);
    var lp := DeleteListRequest(name, listId).path;
    var rp := DeletePolicyRequest(policyId).path;
    assert lp[..|RulesPath + "/"|][8] == 'l' != (RulesPath + "/")[8];
    assert rp[..|ListsPath + "/"|][8] == 'r' != (ListsPath + "/")[8];
  }
}

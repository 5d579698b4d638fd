/** What both handlers exchange with the commerce platform's Admin API around
    their single metafield write: the customer's metafield listing (read), the
    write they plan (create or update), the reply to that write, and the HTTP
    response they send back. */
module Shopify {
  import opened Js

  /** One entry of `metafieldsData.metafields`, as far as the handlers read it. */
  datatype Listed = Listed(id: JsValue, namespace: string, key: string)

  predicate Matches(m: Listed, namespace: string, key: string) {
    m.namespace == namespace && m.key == key
  }

  /** Entry `i` is the one `find` returns: it matches and no earlier entry does. */
  predicate IsFirstMatch(listing: seq<Listed>, i: int, namespace: string, key: string) {
    0 <= i < |listing|
    && Matches(listing[i], namespace, key)
    && forall j :: 0 <= j < i ==> !Matches(listing[j], namespace, key)
  }

  /** `listing.find(m => m.namespace === namespace && m.key === key)`, as an index. */
  function FirstMatch(listing: seq<Listed>, namespace: string, key: string): (r: Option<nat>)
    ensures r.Some? ==> IsFirstMatch(listing, r.value, namespace, key)
    ensures r.None? <==> forall j :: 0 <= j < |listing| ==> !Matches(listing[j], namespace, key)
  {
    if |listing| == 0 then None
    else if Matches(listing[0], namespace, key) then Some(0)
    else match FirstMatch(listing[1..], namespace, key)
      case None => None
      case Some(i) => Some(i + 1)
  }

  /** `existing?.id`: `undefined` when nothing matches. */
  function MatchedId(listing: seq<Listed>, namespace: string, key: string): (id: JsValue)
    ensures (forall j :: 0 <= j < |listing| ==> !Matches(listing[j], namespace, key)) ==> id == Undefined
    ensures forall i :: IsFirstMatch(listing, i, namespace, key) ==> id == listing[i].id
  {
    match FirstMatch(listing, namespace, key)
    case None => Undefined
    case Some(i) => listing[i].id
  }

  /** The target of the single metafield write. */
  datatype Plan =
    | Create(customerId: JsValue)    // POST customers/{customerId}/metafields.json
    | Update(metafieldId: JsValue)   // PUT metafields/{metafieldId}.json

  /** The upsert decision: an update of the first (namespace, key) match when
      that match has a truthy id, a create on the customer's collection
      otherwise. Only the first match counts, and only its id. */
  function PlanFor(customerId: JsValue, listing: seq<Listed>, namespace: string, key: string): (p: Plan)
    ensures p.Update? <==> exists i :: IsFirstMatch(listing, i, namespace, key) && Truthy(listing[i].id)
    ensures p.Update? ==> exists i :: IsFirstMatch(listing, i, namespace, key) && p.metafieldId == listing[i].id
    ensures p.Create? ==> p.customerId == customerId
  {
    var metafieldId := MatchedId(listing, namespace, key);
    if Truthy(metafieldId) then Update(metafieldId) else Create(customerId)
  }

  lemma FirstMatchUnique(listing: seq<Listed>, i: int, j: int, namespace: string, key: string)
    requires IsFirstMatch(listing, i, namespace, key) && IsFirstMatch(listing, j, namespace, key)
    ensures i == j
  {
  }

  /** When the platform already holds a metafield for (namespace, key) and
      every listed metafield has an id, the plan is an update, never a second create. */
  lemma NoDuplicateCreate(customerId: JsValue, listing: seq<Listed>, namespace: string, key: string)
    requires exists i :: 0 <= i < |listing| && Matches(listing[i], namespace, key)
    requires forall i :: 0 <= i < |listing| ==> Truthy(listing[i].id)
    ensures PlanFor(customerId, listing, namespace, key).Update?
  {
  }

  /** After a create has appended the new metafield to the listing, the same
      request plans an update of exactly that metafield. */
  lemma CreateThenUpdate(customerId: JsValue, listing: seq<Listed>, newId: JsValue, namespace: string, key: string)
    requires PlanFor(customerId, listing, namespace, key).Create?
    requires forall i :: 0 <= i < |listing| ==> Truthy(listing[i].id)
    requires Truthy(newId)
    ensures PlanFor(customerId, listing + [Listed(newId, namespace, key)], namespace, key) == Update(newId)
  {
    var after := listing + [Listed(newId, namespace, key)];
    assert forall j :: 0 <= j < |listing| ==> !Matches(listing[j], namespace, key);
    assert IsFirstMatch(after, |listing|, namespace, key);
    var r := FirstMatch(after, namespace, key);
    FirstMatchUnique(after, r.value, |listing|, namespace, key);
  }

  /** Where the entries of `listing` stand once `other` is inserted at `k`. */
  lemma InsertedPositions(listing: seq<Listed>, other: Listed, k: nat)
    requires k <= |listing|
    ensures var longer := listing[..k] + [other] + listing[k..];
      && |longer| == |listing| + 1
      && longer[k] == other
      && (forall j :: 0 <= j < k ==> longer[j] == listing[j])
      && (forall j :: k < j < |longer| ==> longer[j] == listing[j - 1])
  {
  }

  lemma FirstMatchAfterInsert(listing: seq<Listed>, other: Listed, k: nat, i: nat, namespace: string, key: string)
    requires !Matches(other, namespace, key)
    requires k <= |listing|
    requires IsFirstMatch(listing, i, namespace, key)
    ensures IsFirstMatch(listing[..k] + [other] + listing[k..], if i < k then i else i + 1, namespace, key)
  {
  }

  lemma NoMatchAfterInsert(listing: seq<Listed>, other: Listed, k: nat, namespace: string, key: string)
    requires !Matches(other, namespace, key)
    requires k <= |listing|
    requires forall j :: 0 <= j < |listing| ==> !Matches(listing[j], namespace, key)
    ensures forall j :: 0 <= j < |listing| + 1 ==> !Matches((listing[..k] + [other] + listing[k..])[j], namespace, key)
  {
  }

  /** Entries for other (namespace, key) pairs never influence the plan,
      wherever they stand in the listing. */
  lemma UnrelatedEntriesIgnored(customerId: JsValue, listing: seq<Listed>, other: Listed, k: nat, namespace: string, key: string)
    requires !Matches(other, namespace, key)
    requires k <= |listing|
    ensures PlanFor(customerId, listing[..k] + [other] + listing[k..], namespace, key)
         == PlanFor(customerId, listing, namespace, key)
  {
    var longer := listing[..k] + [other] + listing[k..];
    InsertedPositions(listing, other, k);
    var r := FirstMatch(listing, namespace, key);
    if r.None? {
      NoMatchAfterInsert(listing, other, k, namespace, key);
    } else {
      var i' := if r.value < k then r.value else r.value + 1;
      FirstMatchAfterInsert(listing, other, k, r.value, namespace, key);
      assert longer[i'] == listing[r.value];
    }
  }

  /** The `metafield` object sent with the write. */
  datatype Payload = Payload(namespace: string, key: string, value: JsValue, valueType: string)

  /** A planned remote write: where it goes and what it carries. */
  datatype Write = Write(plan: Plan, payload: Payload)

  /** The decoded body of the write's reply, as far as the handlers read it. */
  datatype ReplyData = ReplyData(errors: JsValue, metafield: JsValue)

  /** The reply to the write: `res.ok`, `res.status` and `await res.json()`. */
  datatype Reply = Reply(ok: bool, status: int, data: ReplyData)

  /** What goes under `error` when the write failed: `data.errors || data`. */
  datatype ErrorDetail = Errors(errors: JsValue) | WholeBody(data: ReplyData)

  function ErrorDetailOf(data: ReplyData): (detail: ErrorDetail)
    ensures detail.Errors? <==> Truthy(data.errors)
    ensures detail.Errors? ==> detail.errors == data.errors
    ensures detail.WholeBody? ==> detail.data == data
  {
    if Truthy(data.errors) then Errors(data.errors) else WholeBody(data)
  }

  /** The JSON body a handler responds with. */
  datatype Body =
    | Message(error: string)          // { error: "..." }
    | Failed(detail: ErrorDetail)     // { error: data.errors || data }
    | TagList(tags: seq<string>)      // { tags }
    | Saved(metafield: JsValue)       // { success: true, metafield: data.metafield }

  datatype Response = Response(status: int, body: Body)
}

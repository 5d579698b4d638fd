/** The POST handler of pages/api/update-mzdao.ts: it upserts one text
    metafield (`custom` / `mzdao`) on a customer.

    The customer's metafield listing and the reply to the write are
    parameters; the planned write and the response are results. */
module UpdateMzdao {
  import opened Js
  import opened Shopify

  const Namespace := "custom"
  const Key := "mzdao"
  const ValueType := "single_line_text_field"

  datatype Request = Request(customerId: JsValue, value: JsValue)

  /** The two possible ends of a request. */
  datatype Outcome =
    | Rejected(response: Response)                 // answered 400 before any remote call
    | Finished(write: Write, response: Response)

  /** The 400 check: a customer id must be truthy, and the value only present;
      an empty string, `null`, `0` or `false` is a value to store. */
  function CheckRequest(req: Request): (rejection: Option<Response>)
    ensures rejection.Some? <==> !Truthy(req.customerId) || req.value == Undefined
    ensures rejection.Some? ==> rejection.value.status == 400
    ensures Truthy(req.customerId) && !Truthy(req.value) && req.value != Undefined ==> rejection.None?
  {
    if !Truthy(req.customerId) || req.value == Undefined
    then Some(Response(400, Message("Missing required fields")))
    else None
  }

  /** `metafieldsData.metafields || []` */
  function AllMetafields(listing: Option<seq<Listed>>): (all: seq<Listed>)
    ensures listing.None? ==> all == []
    ensures listing.Some? ==> all == listing.value
  {
    if listing.Some? then listing.value else []
  }

  /** The handler. An invalid request gets 400 and causes no write. Otherwise
      exactly one write is made: an update of the first `custom`/`mzdao`
      metafield when it has a truthy id, a create on the customer otherwise,
      always carrying the fixed namespace, key and type and the value as sent.
      A failed write is answered 500 with its errors, a successful one 200
      with the metafield the platform returned. */
  method Handle(req: Request, listing: Option<seq<Listed>>, reply: Reply) returns (out: Outcome)
    ensures out.Rejected? <==> !Truthy(req.customerId) || req.value == Undefined
    ensures out.Rejected? ==> out.response == Response(400, Message("Missing required fields"))
    ensures out.Finished? ==> out.write == PlannedWrite(req, listing)
    ensures out.Finished? ==> (out.response.status == 200 <==> reply.ok)
    ensures out.Finished? && reply.ok ==> out.response.body == Saved(reply.data.metafield)
    ensures out.Finished? && !reply.ok ==> out.response == Response(500, Failed(ErrorDetailOf(reply.data)))
  {
    var rejection := CheckRequest(req);
    if rejection.Some? {
      return Rejected(rejection.value);
    }
    var allMetafields := AllMetafields(listing);
    var metafieldId := MatchedId(allMetafields, Namespace, Key);
    var plan := Create(req.customerId);
    if Truthy(metafieldId) {
      plan := Update(metafieldId);
    }
    var payload := Payload(Namespace, Key, req.value, ValueType);
    if !reply.ok {
      return Finished(Write(plan, payload), Response(500, Failed(ErrorDetailOf(reply.data))));
    }
    return Finished(Write(plan, payload), Response(200, Saved(reply.data.metafield)));
  }

  /** The planned write for an accepted request. With no `custom`/`mzdao`
      metafield listed (or no listing at all) it creates one on the customer;
      with one whose id is truthy it updates that id. A metafield matching on
      only one of namespace and key is never the target. */
  function PlannedWrite(req: Request, listing: Option<seq<Listed>>): (w: Write)
    ensures w.payload.namespace == "custom" && w.payload.key == "mzdao"
    ensures w.payload.valueType == "single_line_text_field" && w.payload.value == req.value
    ensures (forall i :: 0 <= i < |AllMetafields(listing)| ==> !Matches(AllMetafields(listing)[i], "custom", "mzdao"))
            ==> w.plan == Create(req.customerId)
    ensures listing.None? ==> w.plan == Create(req.customerId)
    ensures w.plan.Create? ==> w.plan.customerId == req.customerId
    ensures w.plan.Update? ==> exists i :: IsFirstMatch(AllMetafields(listing), i, "custom", "mzdao")
                                        && w.plan.metafieldId == AllMetafields(listing)[i].id
                                        && Truthy(w.plan.metafieldId)
  {
    Write(PlanFor(req.customerId, AllMetafields(listing), Namespace, Key),
          Payload(Namespace, Key, req.value, ValueType))
  }

  /** The update path uses the listed id and never plans a create when the
      first match carries a truthy id. */
  lemma UpdateUsesListedId(req: Request, listing: seq<Listed>, i: nat)
    requires IsFirstMatch(listing, i, Namespace, Key)
    requires Truthy(listing[i].id)
    ensures PlannedWrite(req, Some(listing)).plan == Update(listing[i].id)
  {
  }
}

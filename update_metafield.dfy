/** The POST handler of pages/api/update-metafield.ts: it validates the request,
    scans the submitted value for a birth date of someone under 30, rewrites
    the customer's `under30` tag, and upserts one JSON metafield
    (`over-30` / `over-30-key`) holding the whole submitted value.

    The two reads from the platform (the customer's tag string and metafield
    listing) and the reply to the metafield write are parameters; the tag
    string written back and the planned metafield write are results. */
module UpdateMetafield {
  import opened Js
  import opened Age
  import opened Tags
  import opened Shopify

  const Namespace := "over-30"
  const Key := "over-30-key"
  const ValueType := "json"

  datatype Request = Request(customerId: JsValue, value: JsValue)

  /** One property of the parsed value, in for..in order: its name and what
      its value yields when read as a birth date. */
  datatype Field = Field(name: string, birth: BirthInput)

  /** The value after `JSON.parse` (when it is a string): the parse failure,
      or the properties the for..in loop enumerates. */
  datatype ParsedValue = Unparsable | Fields(fields: seq<Field>)

  /** The three possible ends of a request. */
  datatype Outcome =
    | Rejected(response: Response)
      // answered 400 before any remote call
    | Threw(tagsWritten: string)
      // the listing reply had no `metafields` array: `.find` throws after the tag write
    | Finished(tagsWritten: string, write: Write, response: Response)

  predicate EndsWith(s: string, suffix: string) {
    |suffix| <= |s| && s[|s| - |suffix|..] == suffix
  }

  /** `key.endsWith('birth') || key.endsWith('birth_date')` */
  function IsBirthKey(name: string): (r: bool)
    ensures r <==> exists stem: string :: name == stem + "birth" || name == stem + "birth_date"
  {
    if EndsWith(name, "birth") then
      assert name == name[..|name| - 5] + "birth";
      true
    else if EndsWith(name, "birth_date") then
      assert name == name[..|name| - 10] + "birth_date";
      true
    else
      false
  }

  predicate IsUnder30Field(f: Field, today: Date) {
    IsBirthKey(f.name) && IsUnder30(f.birth, today)
  }

  /** The `hasUnder30` flag: some birth-named field holds the birth date of
      someone under 30 on `today`. */
  function HasUnder30(fields: seq<Field>, today: Date): (r: bool)
    ensures r <==> exists i :: 0 <= i < |fields| && IsUnder30Field(fields[i], today)
  {
    if fields == [] then false
    else IsUnder30Field(fields[0], today) || HasUnder30(fields[1..], today)
  }

  /** The for..in loop of the handler: it stops at the first under-30 birth
      field, which does not change the flag it computes. */
  method ScanForUnder30(fields: seq<Field>, today: Date) returns (hasUnder30: bool)
    ensures hasUnder30 == HasUnder30(fields, today)
  {
    hasUnder30 := false;
    var i := 0;
    while i < |fields|
      invariant 0 <= i <= |fields|
      invariant forall j :: 0 <= j < i ==> !IsUnder30Field(fields[j], today)
    {
      if IsBirthKey(fields[i].name) {
        if IsUnder30(fields[i].birth, today) {
          hasUnder30 := true;
          break;
        }
      }
      i := i + 1;
    }
  }

  /** A field whose name does not end in `birth` or `birth_date` never
      affects the flag, whatever it holds and wherever it stands. */
  lemma NonBirthFieldIgnored(fields: seq<Field>, f: Field, k: nat, today: Date)
    requires !IsBirthKey(f.name)
    requires k <= |fields|
    ensures HasUnder30(fields[..k] + [f] + fields[k..], today) == HasUnder30(fields, today)
  {
    var longer := fields[..k] + [f] + fields[k..];
    if HasUnder30(fields, today) {
      var i :| 0 <= i < |fields| && IsUnder30Field(fields[i], today);
      assert longer[if i < k then i else i + 1] == fields[i];
    }
    if HasUnder30(longer, today) {
      var i :| 0 <= i < |longer| && IsUnder30Field(longer[i], today);
      assert i != k;
      assert fields[if i < k then i else i - 1] == longer[i];
    }
  }

  /** The enumeration order of the value's properties does not matter. */
  lemma EnumerationOrderIrrelevant(fields: seq<Field>, reordered: seq<Field>, today: Date)
    requires multiset(fields) == multiset(reordered)
    ensures HasUnder30(fields, today) == HasUnder30(reordered, today)
  {
    if HasUnder30(fields, today) {
      var i :| 0 <= i < |fields| && IsUnder30Field(fields[i], today);
      assert fields[i] in multiset(reordered);
      var j :| 0 <= j < |reordered| && reordered[j] == fields[i];
    }
    if HasUnder30(reordered, today) {
      var i :| 0 <= i < |reordered| && IsUnder30Field(reordered[i], today);
      assert reordered[i] in multiset(fields);
      var j :| 0 <= j < |fields| && fields[j] == reordered[i];
    }
  }

  /** The 400 check on the request body. The namespace, key and type it also
      tests are non-empty constants, so only the customer id and the value
      decide it. */
  function CheckRequest(req: Request): (rejection: Option<Response>)
    ensures rejection.Some? <==> !Truthy(req.customerId) || !Truthy(req.value)
    ensures rejection.Some? ==> rejection.value == Response(400, Message("Missing required fields"))
  {
    if !Truthy(req.customerId) || !Truthy(Str(Namespace)) || !Truthy(Str(Key))
       || !Truthy(req.value) || !Truthy(Str(ValueType))
    then Some(Response(400, Message("Missing required fields")))
    else None
  }

  /** The handler, from the request to the writes it makes and the response.
      A request without customer id or with a falsy value is refused first,
      then one whose value does not parse; both get 400 and cause no write.
      Otherwise the tag string is always written, the reconciled tag list for
      the scanned flag; then the metafield write is planned (unless the
      listing is malformed, which throws), and the response is 200 with the
      tag list when the write succeeded, the remote status with its errors
      when it did not. */
  method Handle(req: Request, parsed: ParsedValue, today: Date,
                currentTags: Option<string>, listing: Option<seq<Listed>>, reply: Reply)
    returns (out: Outcome)
    ensures out.Rejected? <==> !Truthy(req.customerId) || !Truthy(req.value) || parsed.Unparsable?
    ensures !Truthy(req.customerId) || !Truthy(req.value) ==>
      out == Rejected(Response(400, Message("Missing required fields")))
    ensures Truthy(req.customerId) && Truthy(req.value) && parsed.Unparsable? ==>
      out == Rejected(Response(400, Message("Invalid value format")))
    ensures !out.Rejected? ==>
      out.tagsWritten == TagsAfter(currentTags, HasUnder30(parsed.fields, today))
    ensures out.Threw? <==> !out.Rejected? && listing.None?
    ensures out.Finished? ==> out.write == Write(PlanFor(req.customerId, listing.value, Namespace, Key),
                                                 Payload(Namespace, Key, req.value, ValueType))
    ensures out.Finished? && reply.ok ==>
      out.response == Response(200, TagList(Reconcile(ParseTags(currentTags), HasUnder30(parsed.fields, today))))
    ensures out.Finished? && !reply.ok ==>
      out.response == Response(reply.status, Failed(ErrorDetailOf(reply.data)))
  {
    var rejection := CheckRequest(req);
    if rejection.Some? {
      return Rejected(rejection.value);
    }
    if parsed.Unparsable? {
      return Rejected(Response(400, Message("Invalid value format")));
    }
    var hasUnder30 := ScanForUnder30(parsed.fields, today);

    var tags := ParseTags(currentTags);
    if hasUnder30 {
      if Under30 !in tags {
        tags := tags + [Under30];
      }
    } else {
      tags := RemoveAll(tags, Under30);
    }
    var written := JoinTags(tags);

    var payload := Payload(Namespace, Key, req.value, ValueType);
    var plan := Create(req.customerId);
    if listing.None? {
      return Threw(written);
    }
    var metafieldId := MatchedId(listing.value, Namespace, Key);
    if Truthy(metafieldId) {
      plan := Update(metafieldId);
    }
    if !reply.ok {
      return Finished(written, Write(plan, payload), Response(reply.status, Failed(ErrorDetailOf(reply.data))));
    }
    return Finished(written, Write(plan, payload), Response(200, TagList(tags)));
  }

  /** Sending the same request again, once the first run has written its tag
      string and created the metafield, writes the same tag string and updates
      the created metafield instead of creating another. */
  lemma RepeatedRequestIsStable(req: Request, fields: seq<Field>, today: Date,
                                currentTags: Option<string>, listing: seq<Listed>, createdId: JsValue)
    requires PlanFor(req.customerId, listing, Namespace, Key).Create?
    requires forall i :: 0 <= i < |listing| ==> Truthy(listing[i].id)
    requires Truthy(createdId)
    ensures var hasUnder30 := HasUnder30(fields, today);
            var first := TagsAfter(currentTags, hasUnder30);
            TagsAfter(Some(first), hasUnder30) == first
    ensures PlanFor(req.customerId, listing + [Listed(createdId, Namespace, Key)], Namespace, Key)
         == Update(createdId)
  {
    TagWriteIdempotent(currentTags, HasUnder30(fields, today));
    CreateThenUpdate(req.customerId, listing, createdId, Namespace, Key);
  }
}

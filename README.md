# Customer tag and metafield upsert handlers, modelled in Dafny

This project models the decision logic of two Next.js API handlers. Both handlers
write to a customer record on a commerce platform's Admin API.

- `pages/api/update-metafield.ts` takes a customer id and a JSON `value`. It looks
  through the value's properties for a birth date (a key ending in `birth` or
  `birth_date`) of someone under 30. Ages are whole years, counted against today's
  date. It then re-reads the customer's comma-separated tag string, adds or
  removes the `under30` tag, and writes the string back joined with `", "`.
  Last, it upserts one `json` metafield (`over-30` / `over-30-key`) that holds the
  whole value. The upsert updates the first listed metafield with that
  namespace and key when that metafield has a truthy id. Otherwise it creates one.
- `pages/api/update-mzdao.ts` upserts one `single_line_text_field` metafield
  (`custom` / `mzdao`) with the submitted value, using the same create-or-update rule.

Remote reads are parameters:
- the customer's tag string;
- the metafield listing;
- the reply to the metafield write.

Remote writes are results:
- the tag string written back;
- a `Write` of a `Plan` (`Create(customerId)` for a `POST` to the customer's
  metafield collection, `Update(metafieldId)` for a `PUT` to `metafields/{id}`)
  and a `Payload`.

Today's date is a parameter.

Modules:
- `Js` (`js.dfy`): JavaScript values and truthiness.
- `Age` (`age.dfy`): dates and `isUnder30`.
- `Tags` (`tags.dfy`): `split`, `trim`, `join`, and the `under30` reconciliation.
- `Shopify` (`shopify.dfy`): the metafield listing, `find`, the upsert plan, the
  reply and the response.
- `UpdateMetafield` (`update_metafield.dfy`) and `UpdateMzdao` (`update_mzdao.dfy`):
  the two handlers.

The handlers' loop and the variables they reassign are kept as methods:
- the `for...in` scan with its `break` (`UpdateMetafield.ScanForUnder30`);
- the `push`/`filter` of `tags` and the reassigned `url`/`method`
  (`UpdateMetafield.Handle`, `UpdateMzdao.Handle`).

Each method is proved equal to a pure function, and the properties are lemmas
about those functions.

Points of the handlers' code worth noting, which the model follows as written:
- The age rule is a rolling cutoff against today's date.
- Only `under30` is ever added or removed. No `above30` tag is produced, although
  `__tests__/update-metafield.test.ts` expects one.
- One JSON metafield holds the whole value. It is a single write with a single
  reply.
- A failed customer read does not stop the request. The handler reads
  `customer?.tags`, so a reply without a customer counts as "no tags". The
  reconciled tag string is still written, and the model does the same
  (`currentTags == None`).
- On a failed metafield write, `update-metafield.ts` passes the platform's status
  through, while `update-mzdao.ts` always answers 500.

## Model

| member | source | states |
|---|---|---|
| `Age.EffectiveAge` | pages/api/update-metafield.ts:27-33 | The year difference, minus one while today's (month, day) is before the birth (month, day), is the number of birthdays reached. The birthday for that age is not after today, and the next birthday is. |
| `Age.IsUnder30` | pages/api/update-metafield.ts:23-34 | False for a falsy or unparsable birth value. Otherwise true iff the effective age is below 30, which is the same as the birth date being strictly after the date thirty years before today. |
| `Age.EffectiveAgeUnique` | pages/api/update-metafield.ts:27-33 | Only one age fits the birthday characterisation, so it defines the age. |
| `Age.ThirtiethBirthdayIsNotUnder30` | pages/api/update-metafield.ts:28-33 | Someone born exactly thirty years before today has age 30 and is not under 30. |
| `Age.LaterBirthStaysUnder30` | pages/api/update-metafield.ts:28-33 | A birth date on or after an under-30 birth date is also under 30. |
| `Js.Truthy` | pages/api/update-metafield.ts:18 | A value is falsy exactly when it is one of `undefined`, `null`, `false`, `0`, `NaN` and `""`. |
| `UpdateMetafield.IsBirthKey` | pages/api/update-metafield.ts:40 | A property name is a birth key iff it is some stem followed by `birth` or by `birth_date`. |
| `UpdateMetafield.HasUnder30` | pages/api/update-metafield.ts:36-46 | The flag is true iff some field whose name ends in `birth` or `birth_date` holds an under-30 birth date. |
| `UpdateMetafield.ScanForUnder30` | pages/api/update-metafield.ts:36-46 | The loop that stops at the first under-30 birth field computes exactly `HasUnder30`, so the `break` does not change the result. |
| `UpdateMetafield.NonBirthFieldIgnored` | pages/api/update-metafield.ts:40 | Inserting a field whose name has neither suffix, anywhere, never changes the flag. |
| `UpdateMetafield.EnumerationOrderIrrelevant` | pages/api/update-metafield.ts:39-46 | Any reordering of the value's properties gives the same flag. |
| `Tags.Trim` | pages/api/update-metafield.ts:59 | `trim()` returns a string with no whitespace at either end that is no longer than its input. |
| `Tags.TrimRemovesOnly` | pages/api/update-metafield.ts:59 | `trim()` never introduces a character, such as a comma, that the input lacks. |
| `Tags.TrimPadded` | pages/api/update-metafield.ts:59 | `trim()` removes exactly the surrounding whitespace: a trimmed string padded with whitespace on both sides trims back to itself. |
| `Tags.Split` | pages/api/update-metafield.ts:59 | `split(',')` gives one more piece than there are commas. No piece contains a comma, and joining the pieces with the separator gives back the input. |
| `Tags.SplitJoin` | pages/api/update-metafield.ts:59 | Splitting a join of comma-free pieces returns those pieces, so split inverts join. |
| `Tags.ParseTags` | pages/api/update-metafield.ts:59 | A missing or empty tag string gives no tags. Otherwise there is one tag per comma, plus one. Each tag is trimmed and comma-free. Tag i is the trim of the i-th of the comma-free pieces whose `,`-join is the tag string. |
| `Tags.TrimAll` | pages/api/update-metafield.ts:59 | `.map(t => t.trim())` keeps the length, and element i is the trim of piece i. |
| `Tags.JoinTags` | pages/api/update-metafield.ts:75 | `tags.join(', ')` is empty for no tags. Otherwise it is the `,`-join of the tags with a space put before every tag but the first. |
| `Tags.JoinThenParse` | pages/api/update-metafield.ts:59-75 | Joining with `", "` and reading back returns the same list, for tags without commas or surrounding whitespace, except a lone empty tag. |
| `Tags.RemoveAll` | pages/api/update-metafield.ts:65 | `filter(t => t !== x)`: no `x` is left. Every other tag keeps its count and its relative order, and a duplicate-free list stays duplicate-free. |
| `Tags.Reconcile` | pages/api/update-metafield.ts:62-66 | With the flag set, `under30` is present, every earlier tag keeps its position, and one element is appended iff `under30` was absent. Without the flag, `under30` is absent and the rest is an order-preserving subsequence. Only `under30` changes membership or count, and no duplicate is introduced. |
| `Tags.ReconcileIdempotent` | pages/api/update-metafield.ts:62-66 | Reconciling twice with the same flag equals reconciling once. |
| `Tags.ReconcileKeepsWellFormed` | pages/api/update-metafield.ts:59-66 | Reconciliation keeps every tag comma-free and trimmed. |
| `Tags.TagWriteIdempotent` | pages/api/update-metafield.ts:59-75 | Running the read-reconcile-join step again on the string it wrote, with the same flag, writes the same string. |
| `Shopify.FirstMatch` | pages/api/update-metafield.ts:98-100 | `find` returns the first entry whose namespace and key both match, or nothing exactly when no entry matches. |
| `Shopify.MatchedId` | pages/api/update-metafield.ts:98-101 | `existingMetafield?.id` is `undefined` when no entry matches. Otherwise it is the id of the first match. |
| `Shopify.ErrorDetailOf` | pages/api/update-metafield.ts:121 | `data.errors || data` is the errors exactly when they are truthy. Otherwise it is the whole reply body. |
| `Shopify.PlanFor` | pages/api/update-metafield.ts:87-107 | The plan is an update iff the first match has a truthy id, and it then targets that id. Otherwise it is a create on the given customer. |
| `Shopify.FirstMatchUnique` | pages/api/update-metafield.ts:98-100 | At most one entry is the first match. |
| `Shopify.NoDuplicateCreate` | pages/api/update-metafield.ts:101-107 | When a matching metafield exists and every listed id is truthy, the plan is an update, never a second create. |
| `Shopify.CreateThenUpdate` | pages/api/update-metafield.ts:87-107 | After a create appends the new metafield to the listing, the same request plans an update of that metafield. |
| `Shopify.UnrelatedEntriesIgnored` | pages/api/update-mzdao.ts:39-48 | Inserting an entry with another namespace or key, anywhere in the listing, never changes the plan. |
| `UpdateMetafield.CheckRequest` | pages/api/update-metafield.ts:18-20 | The request is refused with 400 iff the customer id or the value is falsy. The constant namespace, key and type never cause a refusal. |
| `UpdateMetafield.Handle` | pages/api/update-metafield.ts:16-124 | A falsy id or value gives 400 `Missing required fields`, and an unparsable value then gives 400 `Invalid value format`, in both cases with no write. Otherwise the written tag string is `TagsAfter`: the joined reconciliation of the read tags for the scanned flag. A missing listing throws after that write. Otherwise the write is `PlanFor` with payload (`over-30`, `over-30-key`, value, `json`). The response is 200 with the tag list when the write succeeded, and the remote status with `errors || data` when it failed. |
| `UpdateMetafield.RepeatedRequestIsStable` | pages/api/update-metafield.ts:59-107 | Repeating a request after it created the metafield writes the same tag string and updates the created metafield. |
| `UpdateMzdao.CheckRequest` | pages/api/update-mzdao.ts:24-26 | The request is refused with 400 iff the customer id is falsy or the value is `undefined`. A present falsy value such as `""` is accepted. |
| `UpdateMzdao.AllMetafields` | pages/api/update-mzdao.ts:36 | `metafieldsData.metafields || []` is the listing when the reply has one, and the empty list otherwise. |
| `UpdateMzdao.PlannedWrite` | pages/api/update-mzdao.ts:36-56 | The payload always carries `custom`, `mzdao`, `single_line_text_field` and the value unchanged. A missing listing, or one with no `custom`/`mzdao` entry, gives a create on the customer. An update targets the truthy id of the first entry matching both namespace and key. A create targets the request's customer. |
| `UpdateMzdao.UpdateUsesListedId` | pages/api/update-mzdao.ts:45-48 | When the first match has a truthy id, the plan is an update of exactly that id. |
| `UpdateMzdao.Handle` | pages/api/update-mzdao.ts:22-70 | A falsy id or an `undefined` value gives 400 with no write. Otherwise the write is `PlannedWrite`. The status is 200 iff the write succeeded, with the returned metafield. A failure gives 500 with `errors || data`. |

## Left out

- Network I/O is not modelled: the `fetch` calls, the request headers, the shop domain, the access token and the URL text. Each remote read is a parameter and each write a returned `Write` or tag string. The write targets are the `Plan` constructors rather than URL strings.
- The CORS headers, the OPTIONS answer and the 405 method check are transport glue and are not modelled.
- `JSON.parse` of the value and the `for...in` enumeration are an input. `ParsedValue` is either the parse failure or the enumerated properties in order.
- Date-string parsing is an input as well. `BirthInput` is a falsy value, an unparsable string, or a (year, month, day) triple. The local-time versus UTC behaviour of `getFullYear`, `getMonth` and `getDate` is not modelled.
- JavaScript numbers are integers in `JsValue`. Fractional numbers are not modelled because no truthiness test here depends on them.
- Exceptions from decoding a non-JSON reply body are not modelled. The one exception that is modelled is the `.find` on a missing `metafields` array in `update-metafield.ts` (`Outcome.Threw`).
- The result of the tag write is not an input. The handler never looks at it.
- `pages/api/metafield.ts` and `pages/api/hello.ts` are not part of this model. They are read-only passthroughs.
- `__tests__/update-metafield.test.ts` expects behaviour the handler does not have. It sends no `value`, expects an `above30` tag, and expects 30-year-olds to be tagged `under30`. Those expectations are not stated as properties.

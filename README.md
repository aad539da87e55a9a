# Alias registry and contact table of the Telios client backend, in Dafny

This project models two groups of IPC event handlers of the Telios client
backend, each running over the backend's document store:

- the **alias registry** (`src/lib/alias.ts`). It holds the AliasNamespace
  collection (namespaces owned by a mailbox, each with a keypair derived from
  the account secret), the Alias collection (alias addresses keyed
  `namespace#address`, with a usage count and a forward list stored
  comma-joined), and the process-wide keypair cache `store.setKeypair`. It
  also talks to the upstream mail relay;
- the **contact table** (`src/lib/contact.ts`). It bulk-upserts contacts
  with defaulted ids, display names and timestamps, and gets, updates and
  removes contacts by `contactId`.

Layout:

- `common.dfy` (`Common`): the `{name, message, stacktrace}` error record,
  the data-or-error reply, and the answers of the relay and the store.
- `strings.dfy` (`Strings`): `join`/`split` with one separator character,
  their two round trips, and the order strings are sorted by (character by
  character, by Dafny character code).
- `collection.dfy` (`Collection`): the store operations the handlers issue:
  `find` (`Filter`), multi-record `update` (`UpdateWhere`) and `sort`
  (`SortBy`, an insertion sort proved sorted and a permutation).
- `alias_codec.dfy` (`AliasCodec`): the composite key `namespace#address`,
  the relay address `namespace#address@domain`, and the flattened forward
  list.
- `alias.dfy` (`Alias`): the class `AliasStore` (the `store` object as the
  alias handlers see it), one method per handler, and the specification
  functions and lemmas those methods are proved against.
- `contact.dfy` (`Contact`): contacts as maps from field name to value, the
  class `ContactTable`, one method per handler, and the upsert-loop lemmas.

How the outside world appears in the model:

- Each call to the upstream relay is appended to `AliasStore.relayRequests`.
  Its answer is a parameter of the handler: it returned (with the key, for
  `registerAliasName`) or it threw.
- A store call that may throw gets an `Outcome` parameter. For the
  `createContacts` loop this is a `Fault` that names the upsert that throws.
- The clock and the ObjectID generator are parameters (`now`, `freshIds`).
- `Crypto.boxKeypairFromStr` is the constant function field
  `AliasStore.boxKeypairFromStr`. It is deterministic because it is a
  function.

`AliasStore.Valid()` is an invariant kept by every handler. It says that
every namespace is in the mail domain and keeps the private key derived from
`secretBoxPrivKey + name + "@" + domain`. It also says that every alias is
keyed `namespaceKey#name` and is whitelisted.

What the code does, which a reader might not expect:

- The code has no distinct error kinds for partial updates, missing records
  or invalid input: every handler replies with whatever was thrown.
- `updateAliasAddress` selects records by `name` only, so same-named aliases
  in other namespaces are updated too.
- `updateAliasCount` accepts any `amount`, including negative ones, and
  replies `updated: true` even when no record matches.
- The relay's `registered` flag is ignored: only a throw aborts a handler.
- After `registerAliasNamespace`, the cache holds the derived public key,
  but the stored record holds the key the relay returned. A later
  `getMailboxNamespaces` caches the stored pair.
- The on-the-fly creation of aliases during ingestion is not in the code
  shown here (see "Left out").

## Model

| member | source | states |
|---|---|---|
| `Strings.Join` | src/lib/alias.ts:131 | `fwdAddresses.join(',')` is as long as the parts plus one separator per gap, starts with the first part, and, when there are two or more parts, puts the separator right after it; `[]` joins to `''` |
| `Strings.Split` | src/lib/alias.ts:174 | `split(',')` yields at least one piece, and no piece contains the separator |
| `Strings.SplitJoin` | src/lib/alias.ts:131 | split undoes join for a non-empty list of separator-free parts, except the single empty part |
| `Strings.JoinSplit` | src/lib/alias.ts:174 | join undoes split for every string |
| `Collection.Filter` | src/lib/alias.ts:163-167 | `find(query)` returns exactly the matching records, each as often as stored |
| `Collection.UpdateWhere` | src/lib/alias.ts:221-229 | `update(query, change)` rewrites every matching record in place and leaves the rest |
| `Collection.SortBy` | src/lib/alias.ts:167 | `sort(field, ±1)` returns a permutation of its input, sorted by the field in the chosen direction, between every two positions and not only between neighbours |
| `AliasCodec.AliasId` | src/lib/alias.ts:126 | the key `namespace#address` is the namespace, then `#`, then the address, and no other characters |
| `AliasCodec.FullAddress` | src/lib/alias.ts:119 | the relay address starts with the key `namespace#address`, then `@`, and ends with the domain |
| `AliasCodec.KeySeed` | src/lib/alias.ts:26 | the derivation seed is the account secret, then the namespace, then `@` and the mail domain |
| `AliasCodec.KeySeedInjective` | src/lib/alias.ts:26 | for one account and one mail domain, distinct namespaces get distinct seeds |
| `AliasCodec.AliasIdInjective` | src/lib/alias.ts:126 | when namespace names contain no `#`, distinct (namespace, address) pairs get distinct keys `namespace#address` |
| `AliasCodec.FullAddressDeterminesAlias` | src/lib/alias.ts:119 | within one domain, and when namespace names contain no `#`, the relay address `namespace#address@domain` determines the namespace and the address |
| `AliasCodec.FlattenFwd` | src/lib/alias.ts:131 | a forward list is stored as `null` exactly when it is empty, otherwise comma-joined |
| `AliasCodec.UnflattenFwd` | src/lib/alias.ts:172-175 | a stored list reads back as `[]` exactly when it is `null` or `''`, and no entry contains a comma |
| `AliasCodec.FwdRoundTrip` | src/lib/alias.ts:172-175 | a list written then read comes back identical when its entries are comma-free and it is not `['']`; `[]` is stored as null and read as `[]` |
| `AliasCodec.StoredFwdRoundTrip` | src/lib/alias.ts:131 | a stored list read then written back is unchanged, except `''`, which becomes null |
| `Alias.OrNow` | src/lib/alias.ts:134-135 | the defaulted timestamp is the payload's timestamp when it is present and non-empty; otherwise it is now; it is empty only if now is |
| `Alias.ViewWith` | src/lib/alias.ts:140 | `{...output, fwdAddresses}`: every field of the stored record is kept, and the forward list is replaced by the given one |
| `Alias.View` | src/lib/alias.ts:169-178 | a listed alias keeps every stored field; its list is empty exactly when null or `''` was stored; writing the list back gives the stored value again, with `''` becoming null |
| `Alias.StoredKeypairs` | src/lib/alias.ts:75-78 | one keypair per namespace, in order, made of that namespace's stored public and private key |
| `Alias.MailboxNamespaces` | src/lib/alias.ts:72 | `find({mailboxId}).sort('name', 1)` returns exactly the mailbox's namespaces, by name ascending between every two positions |
| `Alias.NamespaceAliases` | src/lib/alias.ts:163-167 | `find({namespaceKey: {$in: keys}}).sort('createdAt', -1)` returns exactly the aliases of those namespaces, newest first between every two positions |
| `Alias.UpdateByName` | src/lib/alias.ts:221-229 | every record whose `name` is the address, in any namespace, gets the new flattened forward list, description and disabled flag; aliasId, name, namespaceKey, count, whitelisted and timestamps never change; other records are untouched |
| `Alias.RemoveById` | src/lib/alias.ts:259 | exactly the records keyed `namespace#address` disappear; every other record keeps its multiplicity |
| `Alias.IncrementCount` | src/lib/alias.ts:285 | `$inc` raises the count of the records with that key by `amount`; nothing else changes |
| `Alias.IncrementCountTotal` | src/lib/alias.ts:285 | the total usage rises by `amount` per matching record, and not at all when none matches |
| `Alias.IncrementCountAdditive` | src/lib/alias.ts:285 | two increments of one alias equal one increment by their sum |
| `Alias.RegisterReplyMatchesListing` | src/lib/alias.ts:140 | the alias that `registerAliasAddress` replies equals the alias `getMailboxAliases` later returns for the stored record, when the forward list round-trips |
| `Alias.AliasStore.NamespaceKeypair` | src/lib/alias.ts:26 | a namespace's keypair is `boxKeypairFromStr` of its seed (see `AliasCodec.KeySeed`) |
| `Alias.AliasStore.SetKeypair` | src/lib/alias.ts:45 | installs one keypair in the cache |
| `Alias.AliasStore.RegisterAliasNamespace` | src/lib/alias.ts:16-61 | asks the relay with the derived public key; on success stores name, the relay's key as publicKey, the derived privateKey, mailboxId, the mail domain and `disabled = false`, then caches the derived keypair; if the relay or the store throws, the tables and cache are unchanged and the error is replied; keeps `Valid()` |
| `Alias.AliasStore.CacheKeypairs` | src/lib/alias.ts:74-81 | hands each namespace's stored keypair to `setKeypair`, in order |
| `Alias.AliasStore.GetMailboxNamespaces` | src/lib/alias.ts:68-97 | replies the mailbox's namespaces by name; afterwards every returned namespace's keypair is in the cache, with the derived private key; a store failure changes nothing |
| `Alias.AliasStore.RegisterAliasAddress` | src/lib/alias.ts:103-152 | asks the relay to register `namespace#address@domain`, whitelisted, first; on success appends a record keyed `namespace#address` with `name = address`, `namespaceKey = namespace`, `count = 0`, whitelisted, the flattened list, and the payload's timestamps unless missing or empty; replies that record with the list as given; on a throw the tables are unchanged |
| `Alias.AliasStore.GetMailboxAliases` | src/lib/alias.ts:159-194 | replies the aliases of the given namespaces, newest first, with forward lists unflattened; changes nothing |
| `Alias.AliasStore.UpdateAliasAddress` | src/lib/alias.ts:201-245 | asks the relay first; only on success updates the records selected by name; on a throw the tables are unchanged |
| `Alias.AliasStore.RemoveAliasAddress` | src/lib/alias.ts:252-272 | asks the relay to remove first; only on success deletes the records keyed `namespace#address`; replies null; on a throw nothing changes |
| `Alias.AliasStore.UpdateAliasCount` | src/lib/alias.ts:279-298 | increments the matching records and replies `updated: true` whether or not one matched; a store failure changes nothing |
| `Contact.Truthy` | src/lib/contact.ts:22 | a field is truthy only when present; an ObjectID is always truthy |
| `Contact.Render` | src/lib/contact.ts:29 | `${doc.field}` renders a missing field as `undefined`, and a present field as its string or its ObjectID's hex |
| `Contact.DisplayName` | src/lib/contact.ts:28-32 | the display name is empty exactly when neither given nor family name is truthy |
| `Contact.DisplayNameOfFullName` | src/lib/contact.ts:29 | with both names present and not both empty, the display name is `given + " " + family` |
| `Contact.DisplayNameWithoutFamilyName` | src/lib/contact.ts:29 | with only a given name, the missing family name is rendered as `undefined` |
| `Contact.Prepared` | src/lib/contact.ts:21-33 | a contact without a truthy `contactId` gets the fresh ObjectID as `contactId` (hex) and `_id`; one with a `contactId` keeps it and its `_id`; every contact gets its display name; other fields are kept |
| `Contact.PrepareContacts` | src/lib/contact.ts:21-35 | the `map` prepares every contact of the list, in order |
| `Contact.Stamped` | src/lib/contact.ts:41-42 | `createdAt`/`updatedAt` are kept when truthy and set to now otherwise; other fields are kept |
| `Contact.Upsert` | src/lib/contact.ts:43-44 | an upsert inserts exactly when no record has the contact's `_id`, appending it; otherwise it writes the contact over every record with that `_id` and adds nothing |
| `Contact.UpsertStep` | src/lib/contact.ts:43-44 | one pass of the loop remembers the contact exactly when its key was absent; the table grows by exactly the number of contacts remembered; the key set gains the contact's key |
| `Contact.UpsertAll` | src/lib/contact.ts:40-45 | the loop reports at most one contact per input, and only contacts of the input |
| `Contact.UpsertAllKeys` | src/lib/contact.ts:40-45 | after the loop the table holds exactly the old keys and the contacts' keys |
| `Contact.UpsertAllInserted` | src/lib/contact.ts:38-47 | the reply lists exactly the first contact of every key the table did not hold, in input order |
| `Contact.UpsertAllSize` | src/lib/contact.ts:40-45 | the table grows by exactly the number of contacts reported as inserted |
| `Contact.UpsertAllKeepsKeysUnique` | src/lib/contact.ts:43 | a table without duplicate `_id`s gets none from the loop |
| `Contact.WithoutId` | src/lib/contact.ts:92 | a truthy `_id` is dropped from the payload; every other field is kept |
| `Contact.UpdateByContactId` | src/lib/contact.ts:92-95 | records with the payload's `contactId` get exactly their old fields plus the payload's fields other than a truthy `_id`; the payload's values win, a falsy `_id` included; their other fields stay; their `_id` stays when the payload's was truthy; other records are untouched |
| `Contact.RemoveByContactId` | src/lib/contact.ts:143 | exactly the records with that `contactId` disappear |
| `Contact.ContactTable.CreateContacts` | src/lib/contact.ts:16-58 | the table after the handler is the upsert loop over the prepared and stamped contacts, and the reply is its inserted list; a store failure at contact `k` replies the error and keeps the first `k` upserts |
| `Contact.ContactTable.GetContactById` | src/lib/contact.ts:64-82 | replies the first record with that `contactId`, or nothing exactly when none has it; changes nothing; a store failure is replied as an error |
| `Contact.ContactTable.UpdateContact` | src/lib/contact.ts:88-107 | on success the table becomes `UpdateByContactId` of the old one and null is replied; on a failure nothing changes |
| `Contact.ContactTable.RemoveContact` | src/lib/contact.ts:137-155 | on success the table becomes `RemoveByContactId` of the old one and null is replied; on a failure nothing changes |

## Left out

- Message ingestion (`saveMessageToDB`), the alias resolver, on-the-fly alias creation, folder assignment, message move, mark-unread and removal: their source module is not part of this model.
- Disabling a namespace: no handler in `src/lib/alias.ts` does it.
- Full-text contact search and `getAllContacts`: the store does all of their work.
- The keypair derivation primitive is a parameter of the store. Its cryptography is not modelled.
- The relay, the channel and the process boundary are not modelled. Relay answers are parameters, and replies are values. Callback event names are not modelled.
- Store setup is not modelled: `store.getAccount()`, access to `store.models`, and `ContactModel.ready()` (which runs outside the `try`).
- Store semantics are assumed, because the model wrappers are not part of this model. `update` merges the given fields into every matching record. `remove` deletes every match. `insert` appends. `findOne` returns the first match. The upsert key `{_id: undefined}` matches records that have no `_id`. Likewise `{contactId: undefined}` matches records that have no `contactId`, so an update payload without `contactId` is written over every record without one. A failed store call changes nothing.
- Alias.AliasStore.UpdateAliasAddress: replies no value, because the value returned by the store's `update` depends on that wrapper.
- Alias.AliasStore.RegisterAliasAddress: uses one clock reading for both defaulted timestamps. The source calls `new Date()` once for each, and the two readings can differ.
- Alias.AliasStore.RegisterAliasAddress: takes the forward list as a list of strings. A caller may pass a string instead; for `''`, the source stores null because its length is 0, and echoes `''` in the reply. A forward list of any other type than a list is not modelled.
- Alias.AliasStore.RegisterAliasNamespace: uses one clock reading for both `createdAt` and `updatedAt`. The source calls `new Date()` twice, and the two readings can differ.
- Contact.ContactTable.CreateContacts: uses one clock reading for every contact's timestamps. It also takes one offered ObjectID per position and uses only those of contacts without a `contactId`.
- In-place mutation of payload objects is not captured. This covers the contact `map` and `delete payload._id`. The model computes new values, so aliasing of those objects by the caller is not captured.
- Contact fields hold only strings or ObjectIDs. `null`, numbers and nested objects are not modelled.
- Counts and amounts are unbounded integers, not IEEE doubles.
- Strings are ordered by Dafny character code. JavaScript orders by UTF-16 code unit, so characters outside the Basic Multilingual Plane can sort differently.
- Concurrency is not modelled. This covers atomicity of `$inc` and concurrent ingestion.

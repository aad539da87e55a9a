/** The contact table: the event handlers of the `contact:` channel over the
    store's Contact collection. A contact is a JavaScript object, modelled as
    a map from field names to values; the handlers read and write a few named
    fields and carry every other field through untouched. */
module Contact {
  import opened Common
  import Collection

  /** A field value: a string, or the BSON ObjectID stored as `_id`. */
  datatype Value = Str(s: string) | ObjectId(hex: string)

  type Doc = map<string, Value>

  const ContactIdField := "contactId"
  const IdField := "_id"
  const GivenNameField := "givenName"
  const FamilyNameField := "familyName"
  const NameField := "name"
  const CreatedAtField := "createdAt"
  const UpdatedAtField := "updatedAt"

  /** `doc.field`, `undefined` being None. */
  function Field(d: Doc, f: string): Option<Value>
  {
    if f in d then Some(d[f]) else None
  }

  /** JavaScript truthiness of `doc.field`: present and not the empty string. */
  predicate Truthy(d: Doc, f: string)
    ensures Truthy(d, f) ==> f in d
    ensures f in d && d[f].ObjectId? ==> Truthy(d, f)
    ensures f in d && d[f].Str? ==> (Truthy(d, f) <==> d[f].s != "")
  {
    f in d && d[f] != Str("")
  }

  /** `${doc.field}` in a template string; a missing field renders as "undefined". */
  function Render(d: Doc, f: string): (text: string)
    ensures f !in d ==> text == "undefined"
    ensures Field(d, f) == Some(Str(text)) || (f in d && d[f] == ObjectId(text)) || f !in d
  {
    if f !in d then "undefined"
    else match d[f]
      case Str(s) => s
      case ObjectId(hex) => hex
  }

  /** The display name: given and family name joined by a space when either
      is truthy, otherwise empty. */
  function DisplayName(c: Doc): (name: string)
    ensures name == "" <==> !Truthy(c, GivenNameField) && !Truthy(c, FamilyNameField)
  {
    if Truthy(c, GivenNameField) || Truthy(c, FamilyNameField) then
      Render(c, GivenNameField) + " " + Render(c, FamilyNameField)
    else ""
  }

  /** With both names present the display name is "given family". */
  lemma DisplayNameOfFullName(c: Doc, given: string, family: string)
    requires Field(c, GivenNameField) == Some(Str(given)) && Field(c, FamilyNameField) == Some(Str(family))
    requires given != "" || family != ""
    ensures DisplayName(c) == given + " " + family
  {
  }

  /** With only a given name, the missing family name is rendered as "undefined". */
  lemma DisplayNameWithoutFamilyName(c: Doc, given: string)
    requires Field(c, GivenNameField) == Some(Str(given)) && given != ""
    requires FamilyNameField !in c
    ensures DisplayName(c) == given + " undefined"
  {
  }

  /** The contact as `createContacts` prepares it before writing: a contact
      without a (truthy) `contactId` gets the fresh ObjectID as `contactId`
      (hex) and as `_id`; every contact gets its display name. */
  function Prepared(c: Doc, freshId: string): (r: Doc)
    ensures r.Keys == c.Keys + {NameField} + if Truthy(c, ContactIdField) then {} else {ContactIdField, IdField}
    ensures Truthy(c, ContactIdField) ==> r[ContactIdField] == c[ContactIdField] && Field(r, IdField) == Field(c, IdField)
    ensures !Truthy(c, ContactIdField) ==> r[ContactIdField] == Str(freshId) && r[IdField] == ObjectId(freshId)
    ensures r[NameField] == Str(DisplayName(c))
    ensures forall f :: f in c && f != ContactIdField && f != IdField && f != NameField ==> f in r && r[f] == c[f]
  {
    var withId := if Truthy(c, ContactIdField) then c
                  else c[ContactIdField := Str(freshId)][IdField := ObjectId(freshId)];
    withId[NameField := Str(DisplayName(withId))]
  }

  /** `contact.createdAt = contact.createdAt || now` and the same for
      `updatedAt`: a timestamp the contact carries is kept, a missing or
      empty one is set to `now`. */
  function Stamped(c: Doc, now: string): (r: Doc)
    ensures r.Keys == c.Keys + {CreatedAtField, UpdatedAtField}
    ensures Truthy(c, CreatedAtField) ==> r[CreatedAtField] == c[CreatedAtField]
    ensures !Truthy(c, CreatedAtField) ==> r[CreatedAtField] == Str(now)
    ensures Truthy(c, UpdatedAtField) ==> r[UpdatedAtField] == c[UpdatedAtField]
    ensures !Truthy(c, UpdatedAtField) ==> r[UpdatedAtField] == Str(now)
    ensures forall f :: f in c && f != CreatedAtField && f != UpdatedAtField ==> f in r && r[f] == c[f]
  {
    var created := if Truthy(c, CreatedAtField) then c[CreatedAtField] else Str(now);
    var updated := if Truthy(c, UpdatedAtField) then c[UpdatedAtField] else Str(now);
    c[CreatedAtField := created][UpdatedAtField := updated]
  }

  /** The key `createContacts` upserts by: the `_id` field, or undefined. */
  function Key(d: Doc): Option<Value>
  {
    Field(d, IdField)
  }

  /** The keys present in a table. */
  function Keys(docs: seq<Doc>): set<Option<Value>>
  {
    set d | d in docs :: Key(d)
  }

  /** No two records of the table share a key. */
  predicate UniqueKeys(docs: seq<Doc>)
  {
    forall i, j :: 0 <= i < j < |docs| ==> Key(docs[i]) != Key(docs[j])
  }

  function SameKey(c: Doc): Doc -> bool
  {
    d => Key(d) == Key(c)
  }

  lemma KeyInKeys(docs: seq<Doc>, i: int)
    requires 0 <= i < |docs|
    ensures Key(docs[i]) in Keys(docs)
  {
    assert docs[i] in docs;
  }

  lemma KeysAppend(docs: seq<Doc>, c: Doc)
    ensures Keys(docs + [c]) == Keys(docs) + {Key(c)}
  {
    assert forall d :: d in docs + [c] <==> d in docs || d == c;
  }

  /** Tables whose records have the same keys position by position have the same key set. */
  lemma KeysPointwise(a: seq<Doc>, b: seq<Doc>)
    requires |a| == |b|
    requires forall i :: 0 <= i < |a| ==> Key(a[i]) == Key(b[i])
    ensures Keys(a) == Keys(b)
  {
    forall k | k in Keys(a) ensures k in Keys(b) {
      var d :| d in a && Key(d) == k;
      var i :| 0 <= i < |a| && a[i] == d;
      KeyInKeys(b, i);
    }
    forall k | k in Keys(b) ensures k in Keys(a) {
      var d :| d in b && Key(d) == k;
      var i :| 0 <= i < |b| && b[i] == d;
      KeyInKeys(a, i);
    }
  }

  /** Writing a contact over a record with the same key keeps that key. */
  lemma MergeKeepsKey(d: Doc, c: Doc)
    requires Key(d) == Key(c)
    ensures Key(d + c) == Key(d)
  {
  }

  datatype UpsertResult = UpsertResult(docs: seq<Doc>, inserted: bool)

  /** `update({ _id: contact._id }, contact, { upsert: true })`: when records
      with the contact's key exist, the contact's fields are written over
      them and nothing is inserted; otherwise the contact is appended. */
  function Upsert(docs: seq<Doc>, c: Doc): (r: UpsertResult)
    ensures r.inserted <==> Key(c) !in Keys(docs)
    ensures r.inserted ==> r.docs == docs + [c]
    ensures !r.inserted ==> |r.docs| == |docs|
    ensures !r.inserted ==> forall i :: 0 <= i < |docs| ==>
      r.docs[i] == if Key(docs[i]) == Key(c) then docs[i] + c else docs[i]
    ensures Keys(r.docs) == Keys(docs) + {Key(c)}
  {
    if Key(c) !in Keys(docs) then
      KeysAppend(docs, c);
      UpsertResult(docs + [c], true)
    else
      var updated := Collection.UpdateWhere(docs, SameKey(c), (d: Doc) => d + c);
      forall i | 0 <= i < |docs| ensures Key(updated[i]) == Key(docs[i]) {
        if Key(docs[i]) == Key(c) {
          assert SameKey(c)(docs[i]);
          MergeKeepsKey(docs[i], c);
        } else {
          assert !SameKey(c)(docs[i]);
        }
      }
      KeysPointwise(updated, docs);
      UpsertResult(updated, false)
  }

  datatype Upserted = Upserted(docs: seq<Doc>, inserted: seq<Doc>)

  /** One pass of the `for` loop of `createContacts`: upsert the contact and
      remember it when the upsert inserted it. */
  function UpsertStep(before: Upserted, c: Doc): (after: Upserted)
    ensures after.inserted == before.inserted || after.inserted == before.inserted + [c]
    ensures after.inserted == before.inserted + [c] <==> Key(c) !in Keys(before.docs)
    ensures |after.docs| - |before.docs| == |after.inserted| - |before.inserted|
    ensures Keys(after.docs) == Keys(before.docs) + {Key(c)}
  {
    var step := Upsert(before.docs, c);
    Upserted(step.docs, before.inserted + if step.inserted then [c] else [])
  }

  /** The whole loop: the contacts upserted one after another. */
  function UpsertAll(docs: seq<Doc>, cs: seq<Doc>): (r: Upserted)
    ensures |r.inserted| <= |cs|
    ensures forall c :: c in r.inserted ==> c in cs
  {
    if cs == [] then Upserted(docs, [])
    else UpsertStep(UpsertAll(docs, cs[..|cs| - 1]), cs[|cs| - 1])
  }

  lemma UpsertAllPrefix(docs: seq<Doc>, cs: seq<Doc>, i: int)
    requires 0 <= i < |cs|
    ensures UpsertAll(docs, cs[..i + 1]) == UpsertStep(UpsertAll(docs, cs[..i]), cs[i])
  {
    assert cs[..i + 1][..i] == cs[..i];
  }

  /** The contacts of `cs` whose key is neither in `known` nor carried by an
      earlier contact of `cs`: the first contact of each new key, in order. */
  function FirstOfNewKeys(known: set<Option<Value>>, cs: seq<Doc>): seq<Doc>
  {
    if cs == [] then []
    else
      var init := cs[..|cs| - 1];
      var last := cs[|cs| - 1];
      FirstOfNewKeys(known, init) + if Key(last) in known + Keys(init) then [] else [last]
  }

  /** After the loop the table holds the old keys and the contacts' keys. */
  lemma {:induction false} UpsertAllKeys(docs: seq<Doc>, cs: seq<Doc>)
    ensures Keys(UpsertAll(docs, cs).docs) == Keys(docs) + Keys(cs)
  {
    if cs != [] {
      var init, last := cs[..|cs| - 1], cs[|cs| - 1];
      var before := UpsertAll(docs, init);
      assert Keys(UpsertAll(docs, cs).docs) == Keys(before.docs) + {Key(last)} by {
        assert UpsertAll(docs, cs).docs == Upsert(before.docs, last).docs;
      }
      UpsertAllKeys(docs, init);
      assert Keys(cs) == Keys(init) + {Key(last)} by {
        assert cs == init + [last];
        KeysAppend(init, last);
      }
    }
  }

  /** The reply of `createContacts` lists exactly the first contact of every
      key the table did not hold, in input order; a contact whose key is
      already stored (or came earlier in the list) is written over the
      stored record instead. */
  lemma {:induction false} UpsertAllInserted(docs: seq<Doc>, cs: seq<Doc>)
    ensures UpsertAll(docs, cs).inserted == FirstOfNewKeys(Keys(docs), cs)
  {
    if cs != [] {
      var init := cs[..|cs| - 1];
      UpsertAllInserted(docs, init);
      UpsertAllKeys(docs, init);
    }
  }

  /** Each upsert adds a record exactly when it reports an insertion. */
  lemma {:induction false} UpsertAllSize(docs: seq<Doc>, cs: seq<Doc>)
    ensures |UpsertAll(docs, cs).docs| == |docs| + |UpsertAll(docs, cs).inserted|
  {
    if cs != [] {
      UpsertAllSize(docs, cs[..|cs| - 1]);
    }
  }

  /** Upserting never duplicates a key: a table with unique keys keeps them. */
  lemma {:induction false} UpsertAllKeepsKeysUnique(docs: seq<Doc>, cs: seq<Doc>)
    requires UniqueKeys(docs)
    ensures UniqueKeys(UpsertAll(docs, cs).docs)
  {
    if cs != [] {
      var init := cs[..|cs| - 1];
      var before := UpsertAll(docs, init);
      var last := cs[|cs| - 1];
      UpsertAllKeepsKeysUnique(docs, init);
      var after := Upsert(before.docs, last).docs;
      if !Upsert(before.docs, last).inserted {
        forall i, j | 0 <= i < j < |after| ensures Key(after[i]) != Key(after[j]) {
          assert Key(after[i]) == Key(before.docs[i]);
          assert Key(after[j]) == Key(before.docs[j]);
        }
      } else {
        forall i, j | 0 <= i < j < |after| ensures Key(after[i]) != Key(after[j]) {
          if j == |before.docs| {
            assert before.docs[i] in before.docs;
          }
        }
      }
    }
  }

  /** The payload `updateContact` writes: without `_id` when it was truthy. */
  function WithoutId(payload: Doc): (patch: Doc)
    ensures Truthy(payload, IdField) ==> IdField !in patch
    ensures forall f :: f in payload && f != IdField ==> f in patch && patch[f] == payload[f]
    ensures forall f :: f in patch ==> f in payload && patch[f] == payload[f]
  {
    if Truthy(payload, IdField) then payload - {IdField} else payload
  }

  function SameContactId(id: Option<Value>): Doc -> bool
  {
    d => Field(d, ContactIdField) == id
  }

  /** `update({ contactId: payload.contactId }, payload)` after a truthy `_id`
      is dropped: the remaining payload fields, a falsy `_id` included, are
      written over every record with that `contactId`, which gains no other
      field; a record keeps its `_id` whenever the payload's `_id` was
      truthy; the other records are untouched. */
  function UpdateByContactId(docs: seq<Doc>, payload: Doc): (r: seq<Doc>)
    ensures |r| == |docs|
    ensures forall i :: 0 <= i < |docs| && Field(docs[i], ContactIdField) != Field(payload, ContactIdField) ==> r[i] == docs[i]
    ensures forall i :: 0 <= i < |docs| && Field(docs[i], ContactIdField) == Field(payload, ContactIdField) ==>
      r[i].Keys == docs[i].Keys + WithoutId(payload).Keys
    ensures forall i, f :: 0 <= i < |docs| && Field(docs[i], ContactIdField) == Field(payload, ContactIdField) && f in WithoutId(payload) ==>
      r[i][f] == WithoutId(payload)[f]
    ensures forall i, f :: 0 <= i < |docs| && f in docs[i] && f !in WithoutId(payload) ==> r[i][f] == docs[i][f]
    ensures Truthy(payload, IdField) ==> forall i :: 0 <= i < |docs| ==> Key(r[i]) == Key(docs[i])
  {
    var patch := WithoutId(payload);
    Collection.UpdateWhere(docs, SameContactId(Field(payload, ContactIdField)), (d: Doc) => d + patch)
  }

  /** `remove({ contactId: id })`: exactly the records with that `contactId` go. */
  function RemoveByContactId(docs: seq<Doc>, id: string): (r: seq<Doc>)
    ensures forall d :: d in r ==> Field(d, ContactIdField) != Some(Str(id))
    ensures forall d :: Field(d, ContactIdField) != Some(Str(id)) ==> multiset(r)[d] == multiset(docs)[d]
  {
    Collection.Filter(docs, (d: Doc) => Field(d, ContactIdField) != Some(Str(id)))
  }

  /** Where `createContacts` fails: at no upsert, or at the upsert of the
      contact with the given index (the store threw). */
  datatype Fault = NoFault | FailAt(step: nat, error: ErrorInfo)

  /** The `map` of `createContacts`: every contact prepared with the fresh
      ObjectID offered for its position. */
  method PrepareContacts(contactList: seq<Doc>, freshIds: seq<string>) returns (prepared: seq<Doc>)
    requires |freshIds| == |contactList|
    ensures |prepared| == |contactList|
    ensures forall i :: 0 <= i < |prepared| ==> prepared[i] == Prepared(contactList[i], freshIds[i])
  {
    prepared := [];
    for i := 0 to |contactList|
      invariant |prepared| == i
      invariant forall j :: 0 <= j < i ==> prepared[j] == Prepared(contactList[j], freshIds[j])
    {
      prepared := prepared + [Prepared(contactList[i], freshIds[i])];
    }
  }

  /** The contacts exactly as `createContacts` writes them. */
  function Normalized(contactList: seq<Doc>, freshIds: seq<string>, now: string): (r: seq<Doc>)
    requires |freshIds| == |contactList|
    ensures |r| == |contactList|
  {
    seq(|contactList|, i requires 0 <= i < |contactList| => Stamped(Prepared(contactList[i], freshIds[i]), now))
  }

  /** The store's Contact collection. */
  class ContactTable {
    var docs: seq<Doc>

    constructor ()
      ensures docs == []
    {
      docs := [];
    }

    /** `contact:createContacts`. Contacts are prepared, stamped and upserted
        one by one; the reply lists those whose upsert inserted a record. A
        store failure at the upsert of contact `k` replies the error and
        leaves the first `k` upserts in place (there is no rollback). */
    method CreateContacts(contactList: seq<Doc>, freshIds: seq<string>, now: string, fault: Fault)
      returns (reply: Reply<seq<Doc>>)
      requires |freshIds| == |contactList|
      modifies this
      ensures var written := Normalized(contactList, freshIds, now);
        if fault.FailAt? && fault.step < |contactList| then
          reply == Error(fault.error) && docs == UpsertAll(old(docs), written[..fault.step]).docs
        else
          reply == Data(UpsertAll(old(docs), written).inserted) && docs == UpsertAll(old(docs), written).docs
    {
      var prepared := PrepareContacts(contactList, freshIds);
      ghost var written := Normalized(contactList, freshIds, now);
      var upserted := [];
      var i := 0;
      while i < |prepared|
        invariant 0 <= i <= |prepared|
        invariant fault.FailAt? ==> i <= fault.step
        invariant Upserted(docs, upserted) == UpsertAll(old(docs), written[..i])
      {
        if fault.FailAt? && fault.step == i {
          return Error(fault.error);
        }
        var contact := Stamped(prepared[i], now);
        var result := Upsert(docs, contact);
        assert contact == written[i] by {
          assert prepared[i] == Prepared(contactList[i], freshIds[i]);
        }
        UpsertAllPrefix(old(docs), written, i);
        docs := result.docs;
        if result.inserted {
          upserted := upserted + [contact];
        }
        i := i + 1;
      }
      assert written[..i] == written;
      reply := Data(upserted);
    }

    /** `contact:getContactById`: the first record whose `contactId` is `id`,
        or nothing. Changes nothing. */
    method GetContactById(id: string, db: Outcome) returns (reply: Reply<Option<Doc>>)
      ensures db.Fail? ==> reply == Error(db.error)
      ensures db.Pass? ==> reply.Data?
      ensures db.Pass? && reply.value.None? ==> forall d :: d in docs ==> Field(d, ContactIdField) != Some(Str(id))
      ensures db.Pass? && reply.value.Some? ==>
        exists i :: 0 <= i < |docs| && docs[i] == reply.value.value &&
          Field(docs[i], ContactIdField) == Some(Str(id)) &&
          (forall j :: 0 <= j < i ==> Field(docs[j], ContactIdField) != Some(Str(id)))
    {
      if db.Fail? {
        return Error(db.error);
      }
      var i := 0;
      while i < |docs|
        invariant 0 <= i <= |docs|
        invariant forall j :: 0 <= j < i ==> Field(docs[j], ContactIdField) != Some(Str(id))
      {
        if Field(docs[i], ContactIdField) == Some(Str(id)) {
          return Data(Some(docs[i]));
        }
        i := i + 1;
      }
      reply := Data(None);
    }

    /** `contact:updateContact`: a store failure changes nothing; otherwise
        the matching records are overwritten and the reply data is null. */
    method UpdateContact(payload: Doc, db: Outcome) returns (reply: Reply<()>)
      modifies this
      ensures db.Fail? ==> reply == Error(db.error) && docs == old(docs)
      ensures db.Pass? ==> reply == Data(()) && docs == UpdateByContactId(old(docs), payload)
    {
      if db.Fail? {
        return Error(db.error);
      }
      docs := UpdateByContactId(docs, payload);
      reply := Data(());
    }

    /** `contact:removeContact`: a store failure changes nothing; otherwise
        the records with that `contactId` are deleted and the reply is null. */
    method RemoveContact(id: string, db: Outcome) returns (reply: Reply<()>)
      modifies this
      ensures db.Fail? ==> reply == Error(db.error) && docs == old(docs)
      ensures db.Pass? ==> reply == Data(()) && docs == RemoveByContactId(old(docs), id)
    {
      if db.Fail? {
        return Error(db.error);
      }
      docs := RemoveByContactId(docs, id);
      reply := Data(());
    }
  }
}

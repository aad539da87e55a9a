/** The alias registry: the event handlers of the `alias:` channel over the
    store's two collections (alias namespaces and alias addresses), the
    process-wide keypair cache, and the upstream mail relay.

    The store is a class whose fields the handlers update. The relay's
    answers and the store's failures are parameters of each handler (the
    relay is network I/O, a store call may throw); every request the model
    sends to the relay is appended to `relayRequests`, so the contracts can
    say what was sent and in which order relative to the local writes. */
module Alias {
  import opened Common
  import opened AliasCodec
  import Collection
  import Strings

  datatype Keypair = Keypair(publicKey: string, privateKey: string)

  /** A record of the AliasNamespace collection. */
  datatype Namespace = Namespace(
    name: string,
    publicKey: string,
    privateKey: string,
    mailboxId: string,
    domain: string,
    disabled: bool,
    createdAt: string,
    updatedAt: string)

  /** A record of the Alias collection; the forward list is kept flattened. */
  datatype AliasRecord = AliasRecord(
    aliasId: string,
    name: string,
    namespaceKey: string,
    count: int,
    description: string,
    fwdAddresses: Option<string>,
    disabled: bool,
    whitelisted: bool,
    createdAt: string,
    updatedAt: string)

  /** An alias as the handlers send it back: the forward list as a list. */
  datatype AliasView = AliasView(
    aliasId: string,
    name: string,
    namespaceKey: string,
    count: int,
    description: string,
    fwdAddresses: seq<string>,
    disabled: bool,
    whitelisted: bool,
    createdAt: string,
    updatedAt: string)

  /** A call to the upstream mail relay, with the arguments it is given. */
  datatype RelayRequest =
    | RegisterAliasName(aliasName: string, domain: string, key: string)
    | RegisterAliasAddress(aliasAddress: string, forwardsTo: seq<string>, whitelisted: bool, disabled: bool)
    | UpdateAliasAddress(aliasAddress: string, forwardsTo: seq<string>, whitelisted: bool, disabled: bool)
    | RemoveAliasAddress(aliasAddress: string)

  /** `given || now`: a timestamp from the payload unless it is missing or empty. */
  function OrNow(given: Option<string>, now: string): (t: string)
    ensures given.Some? && given.value != "" ==> t == given.value
    ensures t == now || given == Some(t)
    ensures t == "" ==> now == ""
  {
    if given.Some? && given.value != "" then given.value else now
  }

  /** An alias record with its forward list given as the record stores it
      or as the list the payload carried. */
  function ViewWith(a: AliasRecord, fwd: seq<string>): (v: AliasView)
    ensures v.fwdAddresses == fwd
    ensures v.aliasId == a.aliasId && v.name == a.name && v.namespaceKey == a.namespaceKey
    ensures v.count == a.count && v.description == a.description
    ensures v.disabled == a.disabled && v.whitelisted == a.whitelisted
    ensures v.createdAt == a.createdAt && v.updatedAt == a.updatedAt
  {
    AliasView(a.aliasId, a.name, a.namespaceKey, a.count, a.description, fwd,
              a.disabled, a.whitelisted, a.createdAt, a.updatedAt)
  }

  /** An alias as `getMailboxAliases` returns it: the stored list unflattened.
      The list is empty exactly when none or `''` was stored, and writing it
      back gives the stored list again (`''` becoming `null`). */
  function View(a: AliasRecord): (v: AliasView)
    ensures v == ViewWith(a, v.fwdAddresses)
    ensures v.fwdAddresses == [] <==> a.fwdAddresses == None || a.fwdAddresses == Some("")
    ensures FlattenFwd(v.fwdAddresses) == if a.fwdAddresses == Some("") then None else a.fwdAddresses
  {
    StoredFwdRoundTrip(a.fwdAddresses);
    ViewWith(a, UnflattenFwd(a.fwdAddresses))
  }

  // The store queries the handlers issue.

  function WithMailbox(mailboxId: string): Namespace -> bool
  {
    (n: Namespace) => n.mailboxId == mailboxId
  }

  function InNamespaces(namespaceKeys: seq<string>): AliasRecord -> bool
  {
    (a: AliasRecord) => a.namespaceKey in namespaceKeys
  }

  function WithName(address: string): AliasRecord -> bool
  {
    (a: AliasRecord) => a.name == address
  }

  function WithId(aliasId: string): AliasRecord -> bool
  {
    (a: AliasRecord) => a.aliasId == aliasId
  }

  /** `find({ mailboxId }).sort('name', 1)`: the namespaces of one mailbox,
      each as often as stored, by name ascending. */
  function MailboxNamespaces(namespaces: seq<Namespace>, mailboxId: string): (r: seq<Namespace>)
    ensures forall n :: multiset(r)[n] == if n.mailboxId == mailboxId then multiset(namespaces)[n] else 0
    ensures Collection.SortedBy(r, (n: Namespace) => n.name, Collection.Ascending)
    ensures forall i, j :: 0 <= i < j < |r| ==> Strings.LessEq(r[i].name, r[j].name)
  {
    Collection.SortBy(Collection.Filter(namespaces, WithMailbox(mailboxId)),
                      (n: Namespace) => n.name, Collection.Ascending)
  }

  /** `find({ namespaceKey: { $in: keys } }).sort('createdAt', -1)`: the aliases
      of the given namespaces, each as often as stored, newest first. */
  function NamespaceAliases(aliases: seq<AliasRecord>, namespaceKeys: seq<string>): (r: seq<AliasRecord>)
    ensures forall a :: multiset(r)[a] == if a.namespaceKey in namespaceKeys then multiset(aliases)[a] else 0
    ensures Collection.SortedBy(r, (a: AliasRecord) => a.createdAt, Collection.Descending)
    ensures forall i, j :: 0 <= i < j < |r| ==> Strings.LessEq(r[j].createdAt, r[i].createdAt)
  {
    Collection.SortBy(Collection.Filter(aliases, InNamespaces(namespaceKeys)),
                      (a: AliasRecord) => a.createdAt, Collection.Descending)
  }

  /** `update({ name: address }, { fwdAddresses, description, disabled })`:
      every record named `address`, in whatever namespace, gets the three new
      fields; nothing else of any record changes. */
  function UpdateByName(aliases: seq<AliasRecord>, address: string, fwd: seq<string>,
                        description: string, disabled: bool): (r: seq<AliasRecord>)
    ensures |r| == |aliases|
    ensures forall i :: 0 <= i < |r| ==>
      r[i].aliasId == aliases[i].aliasId && r[i].name == aliases[i].name &&
      r[i].namespaceKey == aliases[i].namespaceKey && r[i].count == aliases[i].count &&
      r[i].whitelisted == aliases[i].whitelisted &&
      r[i].createdAt == aliases[i].createdAt && r[i].updatedAt == aliases[i].updatedAt
    ensures forall i :: 0 <= i < |r| ==>
      if aliases[i].name == address
      then r[i].fwdAddresses == FlattenFwd(fwd) && r[i].description == description && r[i].disabled == disabled
      else r[i] == aliases[i]
  {
    Collection.UpdateWhere(aliases, WithName(address),
      (a: AliasRecord) => a.(fwdAddresses := FlattenFwd(fwd), description := description, disabled := disabled))
  }

  /** `remove({ aliasId })`: exactly the records with that key disappear;
      every other record keeps its multiplicity. */
  function RemoveById(aliases: seq<AliasRecord>, aliasId: string): (r: seq<AliasRecord>)
    ensures forall a :: a in r ==> a.aliasId != aliasId
    ensures forall a: AliasRecord :: a.aliasId != aliasId ==> multiset(r)[a] == multiset(aliases)[a]
  {
    Collection.Filter(aliases, (a: AliasRecord) => a.aliasId != aliasId)
  }

  /** `update({ aliasId: id }, { $inc: { count: amount } })`: the records with
      that key count `amount` more; no other field and no other record changes. */
  function IncrementCount(aliases: seq<AliasRecord>, aliasId: string, amount: int): (r: seq<AliasRecord>)
    ensures |r| == |aliases|
    ensures forall i :: 0 <= i < |r| ==>
      r[i] == if aliases[i].aliasId == aliasId then aliases[i].(count := aliases[i].count + amount) else aliases[i]
  {
    Collection.UpdateWhere(aliases, WithId(aliasId), (a: AliasRecord) => a.(count := a.count + amount))
  }

  /** The keypairs of some namespaces as their stored fields give them. */
  function StoredKeypairs(namespaces: seq<Namespace>): (r: seq<Keypair>)
    ensures |r| == |namespaces|
    ensures forall i :: 0 <= i < |r| ==>
      r[i].publicKey == namespaces[i].publicKey && r[i].privateKey == namespaces[i].privateKey
  {
    if namespaces == [] then []
    else
      var last := namespaces[|namespaces| - 1];
      StoredKeypairs(namespaces[..|namespaces| - 1]) + [Keypair(last.publicKey, last.privateKey)]
  }

  lemma StoredKeypairsPrefix(namespaces: seq<Namespace>, i: int)
    requires 0 <= i < |namespaces|
    ensures StoredKeypairs(namespaces[..i + 1]) ==
      StoredKeypairs(namespaces[..i]) + [Keypair(namespaces[i].publicKey, namespaces[i].privateKey)]
  {
    assert namespaces[..i + 1][..i] == namespaces[..i];
  }

  /** The sum of the usage counts of some alias records. */
  function TotalCount(aliases: seq<AliasRecord>): int
  {
    if aliases == [] then 0 else aliases[0].count + TotalCount(aliases[1..])
  }

  /** An increment raises the total usage by `amount` per matching record;
      with no matching record it changes nothing. */
  lemma {:induction false} IncrementCountTotal(aliases: seq<AliasRecord>, aliasId: string, amount: int)
    ensures TotalCount(IncrementCount(aliases, aliasId, amount))
         == TotalCount(aliases) + amount * |Collection.Filter(aliases, WithId(aliasId))|
  {
    if aliases != [] {
      var r, tail := IncrementCount(aliases, aliasId, amount), aliases[1..];
      var matching, rest := Collection.Filter(aliases, WithId(aliasId)), Collection.Filter(tail, WithId(aliasId));
      var k := |rest|;
      IncrementCountTotal(tail, aliasId, amount);
      assert r[1..] == IncrementCount(tail, aliasId, amount);
      assert TotalCount(r) == r[0].count + TotalCount(tail) + amount * k;
      if aliases[0].aliasId == aliasId {
        assert WithId(aliasId)(aliases[0]);
        assert |matching| == k + 1;
        MultiplyStep(amount, k);
      } else {
        assert !WithId(aliasId)(aliases[0]);
        assert |matching| == k;
      }
    }
  }

  lemma MultiplyStep(amount: int, k: int)
    ensures amount * (k + 1) == amount * k + amount
  {
  }

  /** Two increments of the same alias add up: counting N messages one at a
      time raises the count by exactly N. */
  lemma IncrementCountAdditive(aliases: seq<AliasRecord>, aliasId: string, a: int, b: int)
    ensures IncrementCount(IncrementCount(aliases, aliasId, a), aliasId, b) == IncrementCount(aliases, aliasId, a + b)
  {
  }

  /** What `registerAliasAddress` replies equals what `getMailboxAliases`
      later returns for the stored record, when the forward list round-trips. */
  lemma RegisterReplyMatchesListing(a: AliasRecord, fwd: seq<string>)
    requires a.fwdAddresses == FlattenFwd(fwd)
    requires fwd != [""]
    requires forall i :: 0 <= i < |fwd| ==> ',' !in fwd[i]
    ensures ViewWith(a, fwd) == View(a)
  {
    FwdRoundTrip(fwd);
  }

  /** The store as the alias handlers see it. */
  class AliasStore {
    /** The account's secret box key, from `store.getAccount()`. */
    const secretBoxPrivKey: string
    /** `store.domain.mail`. */
    const mailDomain: string
    /** `Crypto.boxKeypairFromStr`: a deterministic function of its input. */
    const boxKeypairFromStr: string -> Keypair

    var namespaces: seq<Namespace>
    var aliases: seq<AliasRecord>
    /** Every keypair handed to `store.setKeypair`, in order. */
    var keypairs: seq<Keypair>
    /** Every request sent to the upstream relay, in order. */
    var relayRequests: seq<RelayRequest>

    /** The keypair of a namespace, derived from the account secret, the
        namespace and the mail domain. */
    function NamespaceKeypair(namespace: string): (kp: Keypair)
      ensures kp == boxKeypairFromStr(KeySeed(secretBoxPrivKey, namespace, mailDomain))
    {
      boxKeypairFromStr(secretBoxPrivKey + namespace + "@" + mailDomain)
    }

    /** Every stored namespace lives in the mail domain and keeps the private
        key derived for it; every stored alias is keyed `namespace#name` and
        is whitelisted. */
    ghost predicate Valid()
      reads this
    {
      && (forall n :: n in namespaces ==>
            n.domain == mailDomain && n.privateKey == NamespaceKeypair(n.name).privateKey)
      && (forall a :: a in aliases ==> a.aliasId == AliasId(a.namespaceKey, a.name) && a.whitelisted)
    }

    constructor (secretBoxPrivKey: string, mailDomain: string, boxKeypairFromStr: string -> Keypair)
      ensures Valid()
      ensures this.secretBoxPrivKey == secretBoxPrivKey && this.mailDomain == mailDomain
      ensures this.boxKeypairFromStr == boxKeypairFromStr
      ensures namespaces == [] && aliases == [] && keypairs == [] && relayRequests == []
    {
      this.secretBoxPrivKey := secretBoxPrivKey;
      this.mailDomain := mailDomain;
      this.boxKeypairFromStr := boxKeypairFromStr;
      namespaces, aliases, keypairs, relayRequests := [], [], [], [];
    }

    /** `store.setKeypair`: installs a keypair in the cache. */
    method SetKeypair(keypair: Keypair)
      modifies this`keypairs
      ensures keypairs == old(keypairs) + [keypair]
    {
      keypairs := keypairs + [keypair];
    }

    /** `alias:registerAliasNamespace`. The relay is asked to register the
        namespace with the derived public key; only when it answers does the
        namespace get stored, with the key the RELAY returned as public key
        and the derived private key, and only then is the derived keypair
        cached. A throw from the relay or the store leaves both tables and
        the cache as they were and is replied as an error. */
    method RegisterAliasNamespace(mailboxId: string, namespace: string,
                                  relay: Answer<string>, db: Outcome, now: string)
      returns (reply: Reply<Namespace>)
      requires Valid()
      modifies this
      ensures Valid()
      ensures relayRequests == old(relayRequests) + [RelayRequest.RegisterAliasName(namespace, mailDomain, NamespaceKeypair(namespace).publicKey)]
      ensures aliases == old(aliases)
      ensures reply.Data? <==> relay.Returned? && db.Pass?
      ensures relay.Threw? ==> reply == Error(relay.error)
      ensures relay.Returned? && db.Fail? ==> reply == Error(db.error)
      ensures reply.Error? ==> namespaces == old(namespaces) && keypairs == old(keypairs)
      ensures reply.Data? ==>
        && reply.value == Namespace(namespace, relay.value, NamespaceKeypair(namespace).privateKey,
                                    mailboxId, mailDomain, false, now, now)
        && namespaces == old(namespaces) + [reply.value]
        && keypairs == old(keypairs) + [NamespaceKeypair(namespace)]
    {
      var keypair := NamespaceKeypair(namespace);
      relayRequests := relayRequests + [RelayRequest.RegisterAliasName(namespace, mailDomain, keypair.publicKey)];
      if relay.Threw? {
        return Error(relay.error);
      }
      var output := Namespace(namespace, relay.value, keypair.privateKey, mailboxId, mailDomain, false, now, now);
      if db.Fail? {
        return Error(db.error);
      }
      namespaces := namespaces + [output];
      SetKeypair(keypair);
      reply := Data(output);
    }

    /** The loop of `getMailboxNamespaces`: each namespace's stored keypair
        handed to `store.setKeypair`, in order. */
    method CacheKeypairs(found: seq<Namespace>)
      modifies this`keypairs
      ensures keypairs == old(keypairs) + StoredKeypairs(found)
    {
      for i := 0 to |found|
        invariant keypairs == old(keypairs) + StoredKeypairs(found[..i])
      {
        StoredKeypairsPrefix(found, i);
        SetKeypair(Keypair(found[i].publicKey, found[i].privateKey));
      }
      assert found[..|found|] == found;
    }

    /** `alias:getMailboxNamespaces`: the mailbox's namespaces by name, and
        the stored keypair of each, in that order, installed in the cache;
        the private keys so cached are the derived ones. */
    method GetMailboxNamespaces(mailboxId: string, db: Outcome) returns (reply: Reply<seq<Namespace>>)
      requires Valid()
      modifies this`keypairs
      ensures db.Fail? ==> reply == Error(db.error) && keypairs == old(keypairs)
      ensures db.Pass? ==> reply == Data(MailboxNamespaces(namespaces, mailboxId))
      ensures db.Pass? ==> keypairs == old(keypairs) + StoredKeypairs(reply.value)
      ensures db.Pass? ==> forall n :: n in reply.value ==>
        Keypair(n.publicKey, n.privateKey) in keypairs && n.privateKey == NamespaceKeypair(n.name).privateKey
    {
      if db.Fail? {
        return Error(db.error);
      }
      var found := MailboxNamespaces(namespaces, mailboxId);
      CacheKeypairs(found);
      forall n | n in found
        ensures Keypair(n.publicKey, n.privateKey) in keypairs && n.privateKey == NamespaceKeypair(n.name).privateKey
      {
        var i :| 0 <= i < |found| && found[i] == n;
        assert keypairs[|old(keypairs)| + i] == StoredKeypairs(found)[i];
        assert multiset(found)[n] > 0;
      }
      reply := Data(found);
    }

    /** `alias:registerAliasAddress`. The relay is asked to register the full
        address, whitelisted; only when it answers is the alias stored, keyed
        `namespace#address`, with count 0, whitelisted, the forward list
        flattened and the payload's timestamps unless missing or empty. The
        reply carries the forward list as given. A throw from the relay or
        the store leaves the tables as they were. */
    method RegisterAliasAddress(namespaceName: string, domain: string, address: string,
                                description: string, fwdAddresses: seq<string>, disabled: bool,
                                createdAt: Option<string>, updatedAt: Option<string>,
                                relay: Outcome, db: Outcome, now: string)
      returns (reply: Reply<AliasView>)
      requires Valid()
      modifies this
      ensures Valid()
      ensures relayRequests == old(relayRequests) +
        [RelayRequest.RegisterAliasAddress(FullAddress(namespaceName, address, domain), fwdAddresses, true, disabled)]
      ensures namespaces == old(namespaces) && keypairs == old(keypairs)
      ensures reply.Data? <==> relay.Pass? && db.Pass?
      ensures relay.Fail? ==> reply == Error(relay.error)
      ensures relay.Pass? && db.Fail? ==> reply == Error(db.error)
      ensures reply.Error? ==> aliases == old(aliases)
      ensures reply.Data? ==>
        && |aliases| == |old(aliases)| + 1
        && aliases[..|old(aliases)|] == old(aliases)
        && var a := aliases[|old(aliases)|];
           && a.aliasId == AliasId(namespaceName, address) && a.name == address
           && a.namespaceKey == namespaceName && a.count == 0 && a.whitelisted
           && a.description == description && a.disabled == disabled
           && a.fwdAddresses == FlattenFwd(fwdAddresses)
           && a.createdAt == OrNow(createdAt, now) && a.updatedAt == OrNow(updatedAt, now)
           && reply.value == ViewWith(a, fwdAddresses)
    {
      relayRequests := relayRequests +
        [RelayRequest.RegisterAliasAddress(FullAddress(namespaceName, address, domain), fwdAddresses, true, disabled)];
      if relay.Fail? {
        return Error(relay.error);
      }
      var output := AliasRecord(AliasId(namespaceName, address), address, namespaceName, 0, description,
                                FlattenFwd(fwdAddresses), disabled, true,
                                OrNow(createdAt, now), OrNow(updatedAt, now));
      if db.Fail? {
        return Error(db.error);
      }
      aliases := aliases + [output];
      reply := Data(ViewWith(output, fwdAddresses));
    }

    /** `alias:getMailboxAliases`: the aliases of the given namespaces, newest
        first, each with its forward list unflattened. Changes nothing. */
    method GetMailboxAliases(namespaceKeys: seq<string>, db: Outcome) returns (reply: Reply<seq<AliasView>>)
      ensures db.Fail? ==> reply == Error(db.error)
      ensures db.Pass? ==> reply.Data? && var found := NamespaceAliases(aliases, namespaceKeys);
        |reply.value| == |found| && forall i :: 0 <= i < |found| ==> reply.value[i] == View(found[i])
    {
      if db.Fail? {
        return Error(db.error);
      }
      var found := NamespaceAliases(aliases, namespaceKeys);
      reply := Data(seq(|found|, i requires 0 <= i < |found| => View(found[i])));
    }

    /** `alias:updateAliasAddress`. The relay is asked to update the full
        address first; only when it answers are the local records updated,
        and those are selected by NAME, so same-named aliases of other
        namespaces change too. A throw leaves the tables as they were. */
    method UpdateAliasAddress(namespaceName: string, domain: string, address: string,
                              description: string, fwdAddresses: seq<string>, disabled: bool,
                              relay: Outcome, db: Outcome)
      returns (reply: Reply<()>)
      requires Valid()
      modifies this
      ensures Valid()
      ensures relayRequests == old(relayRequests) +
        [RelayRequest.UpdateAliasAddress(FullAddress(namespaceName, address, domain), fwdAddresses, true, disabled)]
      ensures namespaces == old(namespaces) && keypairs == old(keypairs)
      ensures reply.Data? <==> relay.Pass? && db.Pass?
      ensures relay.Fail? ==> reply == Error(relay.error)
      ensures relay.Pass? && db.Fail? ==> reply == Error(db.error)
      ensures reply.Error? ==> aliases == old(aliases)
      ensures reply.Data? ==> aliases == UpdateByName(old(aliases), address, fwdAddresses, description, disabled)
    {
      relayRequests := relayRequests +
        [RelayRequest.UpdateAliasAddress(FullAddress(namespaceName, address, domain), fwdAddresses, true, disabled)];
      if relay.Fail? {
        return Error(relay.error);
      }
      if db.Fail? {
        return Error(db.error);
      }
      aliases := UpdateByName(aliases, address, fwdAddresses, description, disabled);
      reply := Data(());
    }

    /** `alias:removeAliasAddress`. The relay is asked to remove the full
        address first; only when it answers are the records keyed
        `namespace#address` deleted. The reply data is null. */
    method RemoveAliasAddress(namespaceName: string, domain: string, address: string,
                              relay: Outcome, db: Outcome)
      returns (reply: Reply<()>)
      requires Valid()
      modifies this
      ensures Valid()
      ensures relayRequests == old(relayRequests) + [RelayRequest.RemoveAliasAddress(FullAddress(namespaceName, address, domain))]
      ensures namespaces == old(namespaces) && keypairs == old(keypairs)
      ensures reply.Data? <==> relay.Pass? && db.Pass?
      ensures relay.Fail? ==> reply == Error(relay.error)
      ensures relay.Pass? && db.Fail? ==> reply == Error(db.error)
      ensures reply.Error? ==> aliases == old(aliases)
      ensures reply.Data? ==> aliases == RemoveById(old(aliases), AliasId(namespaceName, address))
    {
      relayRequests := relayRequests + [RelayRequest.RemoveAliasAddress(FullAddress(namespaceName, address, domain))];
      if relay.Fail? {
        return Error(relay.error);
      }
      if db.Fail? {
        return Error(db.error);
      }
      aliases := RemoveById(aliases, AliasId(namespaceName, address));
      reply := Data(());
    }

    /** `alias:updateAliasCount`: adds `amount` to the count of the records
        with key `id` and replies `updated: true`, whether or not any record
        has that key. No relay call. */
    method UpdateAliasCount(id: string, amount: int, db: Outcome) returns (reply: Reply<bool>)
      requires Valid()
      modifies this`aliases
      ensures Valid()
      ensures db.Fail? ==> reply == Error(db.error) && aliases == old(aliases)
      ensures db.Pass? ==> reply == Data(true) && aliases == IncrementCount(old(aliases), id, amount)
    {
      if db.Fail? {
        return Error(db.error);
      }
      aliases := IncrementCount(aliases, id, amount);
      reply := Data(true);
    }
  }
}

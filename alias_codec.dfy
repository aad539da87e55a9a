/** The string formats of the alias registry: the composite key of an alias
    address, the full address sent to the upstream relay, and the stored form
    of a forward list (comma-joined, `null` when empty). */
module AliasCodec {
  import opened Common
  import Strings

  /** The storage key of an alias address, `<namespace>#<address>`. */
  function AliasId(namespaceName: string, address: string): (id: string)
    ensures |id| == |namespaceName| + 1 + |address|
    ensures id[..|namespaceName|] == namespaceName && id[|namespaceName|] == '#'
    ensures id[|namespaceName| + 1..] == address
  {
    namespaceName + "#" + address
  }

  /** The address registered upstream, `<namespace>#<address>@<domain>`. */
  function FullAddress(namespaceName: string, address: string, domain: string): (full: string)
    ensures |full| == |namespaceName| + |address| + |domain| + 2
    ensures full[..|namespaceName| + 1 + |address|] == AliasId(namespaceName, address)
    ensures full[|full| - |domain| - 1] == '@' && full[|full| - |domain|..] == domain
  {
    AliasId(namespaceName, address) + "@" + domain
  }

  /** When namespace names hold no `#`, distinct (namespace, address) pairs
      get distinct keys: the first `#` of a key ends the namespace. */
  lemma AliasIdInjective(ns1: string, a1: string, ns2: string, a2: string)
    requires '#' !in ns1 && '#' !in ns2
    requires AliasId(ns1, a1) == AliasId(ns2, a2)
    ensures ns1 == ns2 && a1 == a2
  {
    var id := AliasId(ns1, a1);
    // the first `#` of the key sits right after the namespace
    assert id[|ns1|] == '#' && id[|ns2|] == '#';
    assert |ns1| == |ns2|;
    assert ns1 == id[..|ns1|] == ns2;
    assert a1 == id[|ns1| + 1..] == a2;
  }

  /** Within one domain the upstream address determines the local key, and
      so (namespaces without `#`) the namespace and the address. */
  lemma FullAddressDeterminesAlias(ns1: string, a1: string, ns2: string, a2: string, domain: string)
    requires '#' !in ns1 && '#' !in ns2
    requires FullAddress(ns1, a1, domain) == FullAddress(ns2, a2, domain)
    ensures ns1 == ns2 && a1 == a2
  {
    var id1, id2 := AliasId(ns1, a1), AliasId(ns2, a2);
    assert |id1| == |id2|;
    assert id1 == FullAddress(ns1, a1, domain)[..|id1|];
    assert id2 == FullAddress(ns2, a2, domain)[..|id2|];
    AliasIdInjective(ns1, a1, ns2, a2);
  }

  /** The string a namespace keypair is derived from:
      `<account secret><namespace>@<mail domain>`. */
  function KeySeed(secret: string, namespaceName: string, domain: string): (seed: string)
    ensures |seed| == |secret| + |namespaceName| + 1 + |domain|
    ensures seed[..|secret|] == secret
    ensures seed[|secret|..|secret| + |namespaceName|] == namespaceName
    ensures seed[|seed| - |domain| - 1..] == "@" + domain
  {
    secret + namespaceName + "@" + domain
  }

  /** For one account and one mail domain, distinct namespaces are derived
      from distinct seeds. */
  lemma KeySeedInjective(secret: string, ns1: string, ns2: string, domain: string)
    requires KeySeed(secret, ns1, domain) == KeySeed(secret, ns2, domain)
    ensures ns1 == ns2
  {
    var seed := KeySeed(secret, ns1, domain);
    assert |ns1| == |ns2|;
    assert ns1 == seed[|secret|..|secret| + |ns1|] == ns2;
  }

  /** How a forward list is stored: `fwd.join(',')`, or `null` when empty. */
  function FlattenFwd(fwd: seq<string>): (stored: Option<string>)
    ensures stored.None? <==> |fwd| == 0
  {
    if |fwd| > 0 then Some(Strings.Join(fwd, ',')) else None
  }

  /** How a stored forward list is read back: `split(',')`, or `[]` when the
      stored value is `null` or the empty string. */
  function UnflattenFwd(stored: Option<string>): (fwd: seq<string>)
    ensures fwd == [] <==> stored.None? || stored == Some("")
    ensures forall i :: 0 <= i < |fwd| ==> ',' !in fwd[i]
  {
    if stored.Some? && |stored.value| > 0 then Strings.Split(stored.value, ',') else []
  }

  /** Reading back a stored list gives the list written, when no entry holds
      a comma and the list is not the single empty string (which is stored
      as "" and read back as []). In particular every list of non-empty,
      comma-free entries round-trips, and [] is stored as null and read as []. */
  lemma FwdRoundTrip(fwd: seq<string>)
    requires fwd != [""]
    requires forall i :: 0 <= i < |fwd| ==> ',' !in fwd[i]
    ensures UnflattenFwd(FlattenFwd(fwd)) == fwd
  {
    if |fwd| > 0 {
      Strings.SplitJoin(fwd, ',');
    }
  }

  /** Writing back what was read reproduces the stored value, except that a
      stored "" comes back as null. */
  lemma StoredFwdRoundTrip(stored: Option<string>)
    ensures FlattenFwd(UnflattenFwd(stored)) == if stored == Some("") then None else stored
  {
    if stored.Some? && |stored.value| > 0 {
      Strings.JoinSplit(stored.value, ',');
    }
  }
}

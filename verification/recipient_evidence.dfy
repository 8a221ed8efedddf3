/** Which evidence is enough: when exactly a message is attributed, said address by address. */
module RecipientEvidence {
  import opened Results
  import opened Recipients

  // ---- By route --------------------------------------------------------------------------

  /** The mailbox being read is proved by a strong header to be the end of the chain. */
  predicate ReachedMailbox(h: Header, account: Account) {
    && account.usernameTarget.Some? && account.usernameTarget.value != ""
    && account.usernameTarget.value in AllNamed(h, STRONG)
  }

  /** A route into this account: to its own address when it is read directly; when its mail is
      forwarded, to an address of the account or of the chain, the mailbox having been reached. */
  predicate LeadsHere(h: Header, account: Account) {
    && h.route.Route?
    && if account.forwarded then
         && ReachedMailbox(h, account)
         && (h.route.forward == account.email || h.route.forward == account.username || h.route.forward in AllNamed(h, STRONG))
       else h.route.forward == account.email
  }

  /** The route's forwarding address, or one of the account's own. */
  predicate InChain(h: Header, account: Account, a: Address)
    requires h.route.Route?
  {
    a == h.route.forward || a in RouteTargets(account)
  }

  function Claimed(h: Header): Field
    requires h.route.Route?
  {
    if h.route.role.InCc? then Cc else To
  }

  /** Everything that is listed fits the route: nobody else was a recipient. */
  predicate RouteHolds(h: Header, aliases: Aliases, account: Account) {
    && account.email != "" && LeadsHere(h, account)
    && Readable(h, STRONG) && Readable(h, WEAK)
    && h.route.private in AllNamed(h, [Claimed(h)])
    && (forall a <- AllNamed(h, STRONG) :: a == h.route.private || InChain(h, account, a))
    && (forall f <- RFC822 :: f in h.lines ==> AllNamed(h, [f]) != {})
    && (forall a <- AllNamed(h, RFC822) :: InChain(h, account, a))
    && (forall f <- STRONG, a <- AllNamed(h, [f]) :: f !in RFC822 && a in aliases ==> a == h.route.private || a == h.route.forward)
    && (forall a <- AllNamed(h, WEAK) :: a in aliases ==> a == h.route.private || a == h.route.forward)
  }

  lemma InOneField(h: Header, fields: seq<Field>, a: Address)
    ensures a in AllNamed(h, fields) <==> exists f <- fields :: a in AllNamed(h, [f])
  {
    if a in AllNamed(h, fields) {
      var f :| f in fields && a in Named(Lines(h, f));
      assert f in [f] && a in AllNamed(h, [f]);
    }
    if f :| f in fields && a in AllNamed(h, [f]) {
      assert a in Named(Lines(h, f));
    }
  }

  lemma ConflictingFields()
    ensures forall f: Field :: f in CONFLICTING <==> (f in STRONG && f !in RFC822) || f in WEAK
    ensures forall f <- RFC822 :: f in STRONG
  {
  }

  lemma ReachedIs(h: Header, account: Account)
    requires account.forwarded
    ensures Meets(AllNamed(h, STRONG), FinalTargets(account)) <==> ReachedMailbox(h, account)
  {
    if Meets(AllNamed(h, STRONG), FinalTargets(account)) {
      var a :| a in AllNamed(h, STRONG) * FinalTargets(account);
    }
    if ReachedMailbox(h, account) {
      assert account.usernameTarget.value in AllNamed(h, STRONG) * FinalTargets(account);
    }
  }

  /** Nobody but the route's own addresses is an alias outside the RFC 822 recipients. */
  lemma NoConflictIs(h: Header, aliases: Aliases)
    requires h.route.Route? && Readable(h, STRONG)
    ensures !ConflictingAlias(h, h.route, aliases) <==>
      && Readable(h, WEAK)
      && (forall f <- STRONG, a <- AllNamed(h, [f]) :: f !in RFC822 && a in aliases ==> a == h.route.private || a == h.route.forward)
      && (forall a <- AllNamed(h, WEAK) :: a in aliases ==> a == h.route.private || a == h.route.forward)
  {
    ConflictingFields();
    forall a: Address ensures a in AllNamed(h, CONFLICTING) <==>
      (exists f <- STRONG :: f !in RFC822 && a in AllNamed(h, [f])) || a in AllNamed(h, WEAK)
    {
      InOneField(h, CONFLICTING, a);
      InOneField(h, WEAK, a);
    }
  }

  /** Each check of a route, once the headers are readable. */
  lemma ChecksAre(h: Header, account: Account)
    requires h.route.Route? && Readable(h, STRONG) && Readable(h, WEAK)
    ensures ForwardTargetMatches(h, h.route, account) <==> LeadsHere(h, account)
    ensures VisibleMatches(h, h.route) <==> h.route.private in AllNamed(h, [Claimed(h)])
    ensures UnexpectedStrong(h, h.route, account) <==>
      exists a <- AllNamed(h, STRONG) :: a != h.route.private && !InChain(h, account, a)
    ensures OriginalMatches(h, h.route, account) <==>
      && (forall f <- RFC822 :: f in h.lines ==> AllNamed(h, [f]) != {})
      && (forall a <- AllNamed(h, RFC822) :: InChain(h, account, a))
  {
    ConflictingFields();
    if account.forwarded { ReachedIs(h, account); }
    assert Claimed(h) in WEAK;
    assert forall a: Address :: a in {h.route.forward} + RouteTargets(account) <==> InChain(h, account, a);
  }

  lemma RouteTrusted(h: Header, aliases: Aliases, account: Account, allowWeak: bool)
    requires h.route.Route?
    ensures ClassifyICloud(h, aliases, account, allowWeak) ==
      if RouteHolds(h, aliases, account) then RouteIDs(h.route, aliases) else None
  {
    if Readable(h, STRONG) {
      NoConflictIs(h, aliases);
      if Readable(h, WEAK) { ChecksAre(h, account); }
    }
  }

  /** A message with a route is attributed to an alias exactly when the route holds and its
      private address belongs to that alias alone. */
  lemma RouteAttributionIs(h: Header, aliases: Aliases, account: Account, allowWeak: bool, id: int)
    requires h.route.Route? && id != 0
    ensures ClassifyICloud(h, aliases, account, allowWeak) == Some({id}) <==>
      RouteHolds(h, aliases, account) && Belongs(h.route.private, aliases, id)
  {
    RouteTrusted(h, aliases, account, allowWeak);
    assert RouteIDs(h.route, aliases) == Some({id}) <==> Belongs(h.route.private, aliases, id) by {
      if RouteIDs(h.route, aliases) == Some({id}) { assert aliases[h.route.private] == [id]; }
    }
  }

  /** Otherwise it is nobody's exactly when the route holds for an address without an alias. */
  lemma RouteNobodyIs(h: Header, aliases: Aliases, account: Account, allowWeak: bool)
    requires h.route.Route?
    ensures ClassifyICloud(h, aliases, account, allowWeak) == Some({}) <==>
      RouteHolds(h, aliases, account)
      && (h.route.private in aliases ==> aliases[h.route.private] == [] || Belongs(h.route.private, aliases, 0))
  {
    RouteTrusted(h, aliases, account, allowWeak);
  }

  lemma PartOf(h: Header, fields: seq<Field>)
    ensures forall f <- fields :: AllNamed(h, [f]) <= AllNamed(h, fields)
  {
    forall f | f in fields ensures AllNamed(h, [f]) <= AllNamed(h, fields) {
      forall a | a in AllNamed(h, [f]) ensures a in AllNamed(h, fields) { InOneField(h, fields, a); }
    }
  }

  /** An RFC 822 recipient is named by a field that is present, and is a strong recipient. */
  lemma OriginalField(h: Header)
    ensures forall a <- AllNamed(h, RFC822) :: a in AllNamed(h, STRONG) && exists f <- RFC822 :: f in h.lines && a in AllNamed(h, [f])
  {
    forall a | a in AllNamed(h, RFC822)
      ensures a in AllNamed(h, STRONG) && exists f <- RFC822 :: f in h.lines && a in AllNamed(h, [f])
    {
      InOneField(h, RFC822, a);
      var f :| f in RFC822 && a in AllNamed(h, [f]);
      Present(h, f, a);
      assert f in STRONG by { ConflictingFields(); }
      InOneField(h, STRONG, a);
    }
  }

  lemma Present(h: Header, f: Field, a: Address)
    requires a in AllNamed(h, [f])
    ensures f in h.lines
  {
  }

  /** Ordinary direct mail: a readable message whose route forwards to the account's own address
      and whose private address is shown where the route claims, everyone else listed being the
      account itself, is attributed to the one alias of that address. */
  lemma DirectRouteIsAttributed(h: Header, aliases: Aliases, account: Account, allowWeak: bool, id: int)
    requires !account.forwarded && account.email != ""
    requires h.route.Route? && h.route.forward == account.email && Belongs(h.route.private, aliases, id) && id != 0
    requires Readable(h, STRONG) && Readable(h, WEAK) && h.route.private in AllNamed(h, [Claimed(h)])
    requires forall a <- AllNamed(h, STRONG) :: a == h.route.private || a == account.email
    requires forall a <- AllNamed(h, WEAK) :: a == h.route.private || a == account.email
    requires forall f <- RFC822 :: f in h.lines ==> AllNamed(h, [f]) != {} && h.route.private !in AllNamed(h, [f])
    ensures ClassifyICloud(h, aliases, account, allowWeak) == Some({id})
  {
    PartOf(h, STRONG);
    OriginalField(h);
    assert RouteHolds(h, aliases, account);
    RouteAttributionIs(h, aliases, account, allowWeak, id);
  }

  /** The forwarded counterpart: the mailbox is proved by a strong header, and everyone else
      listed is the account, its mailbox or the forwarding address. */
  lemma ForwardedRouteIsAttributed(h: Header, aliases: Aliases, account: Account, allowWeak: bool, id: int)
    requires account.forwarded && account.email != "" && ReachedMailbox(h, account)
    requires h.route.Route? && Belongs(h.route.private, aliases, id) && id != 0
    requires h.route.forward == account.email || h.route.forward == account.username || h.route.forward in AllNamed(h, STRONG)
    requires Readable(h, STRONG) && Readable(h, WEAK) && h.route.private in AllNamed(h, [Claimed(h)])
    requires forall a <- AllNamed(h, STRONG) :: a == h.route.private || InChain(h, account, a)
    requires forall a <- AllNamed(h, WEAK) :: a == h.route.private || InChain(h, account, a)
    requires forall a :: InChain(h, account, a) && a in aliases ==> a == h.route.private || a == h.route.forward
    requires forall f <- RFC822 :: f in h.lines ==> AllNamed(h, [f]) != {} && h.route.private !in AllNamed(h, [f])
    ensures ClassifyICloud(h, aliases, account, allowWeak) == Some({id})
  {
    PartOf(h, STRONG);
    OriginalField(h);
    assert RouteHolds(h, aliases, account);
    RouteAttributionIs(h, aliases, account, allowWeak, id);
  }

  // ---- Without a route -------------------------------------------------------------------

  /** The aliases that own these addresses. */
  ghost predicate Owners(addresses: set<Address>, aliases: Aliases, ids: set<int>) {
    forall id :: id in ids <==> exists a <- addresses :: Belongs(a, aliases, id)
  }

  lemma OwnersAre(addresses: set<Address>, aliases: Aliases, ids: set<int>)
    requires AllSingle(addresses, aliases)
    ensures Owners(addresses, aliases, ids) <==> ids == IDs(addresses, aliases)
  {
    forall id ensures id in IDs(addresses, aliases) <==> exists a <- addresses :: Belongs(a, aliases, id) {
      if id in IDs(addresses, aliases) { IDsBelong(addresses, aliases, id); }
      if a :| a in addresses && Belongs(a, aliases, id) { assert aliases[a][0] == id; }
    }
    if Owners(addresses, aliases, ids) {
      forall id ensures id in ids <==> id in IDs(addresses, aliases) {
        assert id in ids <==> exists a <- addresses :: Belongs(a, aliases, id);
      }
    }
  }

  predicate AnyAlias(addresses: set<Address>, aliases: Aliases) {
    exists a <- addresses :: a in aliases
  }

  /** Every strong recipient is one alias or belongs to the account's chain, and forwarded mail
      has reached the mailbox. */
  predicate ChainHolds(h: Header, aliases: Aliases, account: Account) {
    && Readable(h, STRONG)
    && (forall a <- AllNamed(h, STRONG) :: if a in aliases then Single(aliases[a]) else a in RouteTargets(account))
    && (account.forwarded ==> ReachedMailbox(h, account) && account.usernameTarget.value !in aliases)
  }

  predicate VisibleHolds(h: Header, aliases: Aliases) {
    HasAny(h, WEAK) ==> Readable(h, WEAK) && AllSingle(AllNamed(h, WEAK), aliases)
  }

  lemma ChainIs(h: Header, aliases: Aliases, account: Account)
    requires Readable(h, STRONG)
    ensures StrongIDs(AllNamed(h, STRONG), aliases, account) ==
      if ChainHolds(h, aliases, account) then Some(IDs(AllNamed(h, STRONG), aliases)) else None
  {
    var named := AllNamed(h, STRONG);
    var others := set a <- named | a !in aliases;
    if account.forwarded {
      assert Meets(others, FinalTargets(account)) <==>
        ReachedMailbox(h, account) && account.usernameTarget.value !in aliases by {
        if Meets(others, FinalTargets(account)) {
          var a :| a in others * FinalTargets(account);
        }
        if ReachedMailbox(h, account) && account.usernameTarget.value !in aliases {
          assert account.usernameTarget.value in others * FinalTargets(account);
        }
      }
    }
  }

  /** Strong recipients that are aliases decide: they are attributed exactly when the chain holds
      and the visible recipients name no alias or the same ones. */
  lemma StrongAttributionIs(h: Header, aliases: Aliases, account: Account, allowWeak: bool, ids: set<int>)
    requires h.route.NoRoute? && HasAny(h, STRONG) && AnyAlias(AllNamed(h, STRONG), aliases)
    ensures ClassifyICloud(h, aliases, account, allowWeak) == Some(ids) <==>
      && ChainHolds(h, aliases, account) && VisibleHolds(h, aliases) && Owners(AllNamed(h, STRONG), aliases, ids)
      && (HasAny(h, WEAK) && AnyAlias(AllNamed(h, WEAK), aliases) ==> Owners(AllNamed(h, WEAK), aliases, ids))
  {
    if Readable(h, STRONG) {
      ChainIs(h, aliases, account);
      if ChainHolds(h, aliases, account) {
        OwnersAre(AllNamed(h, STRONG), aliases, ids);
        SomeID(AllNamed(h, STRONG), aliases);
        if HasAny(h, WEAK) && VisibleHolds(h, aliases) {
          OwnersAre(AllNamed(h, WEAK), aliases, ids);
          SomeID(AllNamed(h, WEAK), aliases);
        }
      }
    }
  }

  lemma SomeID(addresses: set<Address>, aliases: Aliases)
    requires AllSingle(addresses, aliases)
    ensures IDs(addresses, aliases) != {} <==> AnyAlias(addresses, aliases)
  {
    if AnyAlias(addresses, aliases) {
      var a :| a in addresses && a in aliases;
      assert aliases[a][0] in IDs(addresses, aliases);
    }
    if IDs(addresses, aliases) != {} {
      var id :| id in IDs(addresses, aliases);
      var a :| a in addresses && a in aliases && |aliases[a]| > 0 && aliases[a][0] == id;
    }
  }

  /** Otherwise the visible recipients decide, and only with weak matching: they are attributed
      exactly when no strong header is present, or the strong ones name the account's chain. */
  lemma WeakAttributionIs(h: Header, aliases: Aliases, account: Account, allowWeak: bool, ids: set<int>)
    requires h.route.NoRoute? && ids != {} && (HasAny(h, STRONG) ==> !AnyAlias(AllNamed(h, STRONG), aliases))
    ensures ClassifyICloud(h, aliases, account, allowWeak) == Some(ids) <==>
      && allowWeak && (HasAny(h, STRONG) ==> ChainHolds(h, aliases, account) && AllNamed(h, STRONG) != {})
      && Readable(h, WEAK) && AllSingle(AllNamed(h, WEAK), aliases) && Owners(AllNamed(h, WEAK), aliases, ids)
  {
    if AllSingle(AllNamed(h, WEAK), aliases) { OwnersAre(AllNamed(h, WEAK), aliases, ids); }
    if HasAny(h, STRONG) && Readable(h, STRONG) {
      ChainIs(h, aliases, account);
      SomeID(AllNamed(h, STRONG), aliases);
      if account.forwarded { ReachedIs(h, account); }
      if !HasAny(h, WEAK) { NothingNamed(h, WEAK); }
    }
  }

  /** And the message is nobody's exactly when what is consulted holds and names no alias. */
  lemma NobodyIs(h: Header, aliases: Aliases, account: Account, allowWeak: bool)
    requires h.route.NoRoute? && (HasAny(h, STRONG) ==> !AnyAlias(AllNamed(h, STRONG), aliases))
    ensures ClassifyICloud(h, aliases, account, allowWeak) == Some({}) <==>
      if HasAny(h, STRONG) then
        && ChainHolds(h, aliases, account) && VisibleHolds(h, aliases)
        && (allowWeak && AllNamed(h, STRONG) != {} ==> !AnyAlias(AllNamed(h, WEAK), aliases))
      else allowWeak ==> Readable(h, WEAK) && !AnyAlias(AllNamed(h, WEAK), aliases)
  {
    if AllSingle(AllNamed(h, WEAK), aliases) { SomeID(AllNamed(h, WEAK), aliases); }
    if !HasAny(h, WEAK) { NothingNamed(h, WEAK); }
    if HasAny(h, STRONG) && Readable(h, STRONG) {
      ChainIs(h, aliases, account);
      SomeID(AllNamed(h, STRONG), aliases);
      if account.forwarded { ReachedIs(h, account); }
    }
  }

  lemma NothingNamed(h: Header, fields: seq<Field>)
    requires !HasAny(h, fields)
    ensures AllNamed(h, fields) == {} && IDs({}, map[]) == {}
  {
    if a :| a in AllNamed(h, fields) {
      InOneField(h, fields, a);
      assert false;
    }
  }

  /** One registered strong recipient, the others in the chain, nobody else visible. */
  lemma StrongRecipientIsAttributed(h: Header, aliases: Aliases, account: Account, allowWeak: bool, to: Address, id: int)
    requires h.route.NoRoute? && HasAny(h, STRONG) && Readable(h, STRONG) && Readable(h, WEAK)
    requires to in AllNamed(h, STRONG) && Belongs(to, aliases, id) && id > 0
    requires forall a <- AllNamed(h, STRONG) :: a != to ==> a !in aliases && a in RouteTargets(account)
    requires account.forwarded ==> ReachedMailbox(h, account) && account.usernameTarget.value != to
    requires forall a <- AllNamed(h, WEAK) :: a in aliases ==> Belongs(a, aliases, id)
    ensures ClassifyICloud(h, aliases, account, allowWeak) == Some({id})
  {
    StrongAttributionIs(h, aliases, account, allowWeak, {id});
  }

  // ---- Custom mailboxes ------------------------------------------------------------------

  /** The deciding tier is attributed whole as soon as each of its addresses has an alias of its
      own. */
  lemma CustomTierIsAttributed(h: Header, aliases: Aliases, allowWeak: bool, k: nat, ids: set<int>)
    requires k < |TIERS| && HasAny(h, TIERS[k]) && forall j :: 0 <= j < k ==> !HasAny(h, TIERS[j])
    requires Readable(h, TIERS[k]) && AllNamed(h, TIERS[k]) != {} && OneAliasEach(AllNamed(h, TIERS[k]), aliases)
    requires Owners(AllNamed(h, TIERS[k]), aliases, ids)
    ensures ClassifyCustom(h, aliases, allowWeak) == Some(ids)
  {
    FirstTierDecides(h, TIERS, allowWeak, k);
    OwnersAre(AllNamed(h, TIERS[k]), aliases, ids);
  }
}

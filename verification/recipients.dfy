/** The element of a one-element set. */
module Singletons {

  lemma HasOne<T>(s: set<T>)
    requires |s| == 1
    ensures exists x :: s == {x}
  {
    var x :| x in s;
    assert |s - {x}| == 0;
    assert s == {x};
  }

  ghost function Only<T(!new)>(s: set<T>): (x: T)
    requires |s| == 1
    ensures s == {x}
  {
    HasOne(s);
    var x :| s == {x}; x
  }
}

/** Which aliases a message was delivered to, from its delivery and visible headers. */
module Recipients {
  import opened Results
  import opened Singletons

  type Address = string

  datatype Field =
    | XOriginalTo | XAppleOriginalTo | OriginalRecipient | XOriginalRecipient | XAppleOriginalRecipient
    | FinalRecipient | XOriginalRcptTo | EnvelopeTo | XEnvelopeTo | XForwardedTo | DeliveredTo | XDeliveredTo | XRcptTo
    | To | Cc | ApparentlyTo | ResentTo | ResentCc

  const STRONG: seq<Field> := [
    XOriginalTo, XAppleOriginalTo, OriginalRecipient, XOriginalRecipient, XAppleOriginalRecipient, FinalRecipient,
    XOriginalRcptTo, EnvelopeTo, XEnvelopeTo, XForwardedTo, DeliveredTo, XDeliveredTo, XRcptTo]

  const WEAK: seq<Field> := [To, Cc, ApparentlyTo, ResentTo, ResentCc]

  const RFC822: seq<Field> := [OriginalRecipient, XOriginalRecipient, XAppleOriginalRecipient, FinalRecipient]

  const CONFLICTING: seq<Field> := [
    XOriginalTo, XAppleOriginalTo, XOriginalRcptTo, EnvelopeTo, XEnvelopeTo, XForwardedTo, DeliveredTo, XDeliveredTo, XRcptTo,
    To, Cc, ApparentlyTo, ResentTo, ResentCc]

  const TIERS: seq<seq<Field>> := [
    [XOriginalTo, XAppleOriginalTo, XOriginalRcptTo],
    [OriginalRecipient, XOriginalRecipient, XAppleOriginalRecipient, FinalRecipient],
    [EnvelopeTo, XEnvelopeTo, XForwardedTo],
    [DeliveredTo, XDeliveredTo, XRcptTo]]

  /** One header line: an address list, with normalized addresses, or something unreadable. */
  datatype Value = Malformed | Addresses(list: seq<Address>)

  datatype Role = InTo | InCc

  /** The X-ICLOUD-HME header. */
  datatype Route = NoRoute | BadRoute | Route(private: Address, forward: Address, role: Role)

  datatype Header = Header(lines: map<Field, seq<Value>>, route: Route)

  type Aliases = map<Address, seq<int>>

  /** The configured addresses, normalized; a target is missing when its setting does not parse
      as a plain address. */
  datatype Account = Account(
    email: Address, username: Address, emailTarget: Option<Address>, usernameTarget: Option<Address>, forwarded: bool)

  datatype Mailbox = ICloud | Custom | Unsupported

  // ---- Header access ---------------------------------------------------------------------

  function Lines(h: Header, f: Field): seq<Value> {
    if f in h.lines then h.lines[f] else []
  }

  /** `hasAnyHeader`. */
  predicate HasAny(h: Header, fields: seq<Field>) {
    exists f <- fields :: f in h.lines
  }

  predicate AllReadable(values: seq<Value>) {
    forall v <- values :: v.Addresses?
  }

  predicate Readable(h: Header, fields: seq<Field>) {
    forall f <- fields :: AllReadable(Lines(h, f))
  }

  function Listed(v: Value): seq<Address> {
    if v.Addresses? then v.list else []
  }

  function Named(values: seq<Value>): set<Address> {
    set v, a | v in values && a in Listed(v) && a != "" :: a
  }

  function AllNamed(h: Header, fields: seq<Field>): set<Address> {
    set f <- fields, a <- Named(Lines(h, f)) :: a
  }

  /** What `addressesFromHeaders` returns: nothing if any line is unreadable. */
  function AddressesIn(h: Header, fields: seq<Field>): Option<set<Address>> {
    if Readable(h, fields) then Some(AllNamed(h, fields)) else None
  }

  /** `addressesFromHeaders`. */
  method AddressesFromHeaders(h: Header, fields: seq<Field>) returns (r: Option<set<Address>>)
    ensures r == AddressesIn(h, fields)
  {
    var seen: set<Address> := {};
    for i := 0 to |fields|
      invariant Readable(h, fields[..i]) && seen == AllNamed(h, fields[..i])
    {
      var values := Lines(h, fields[i]);
      var named := CollectLine(values);
      assert fields[..i + 1] == fields[..i] + [fields[i]];
      if named.None? {
        assert fields[i] in fields;
        return None;
      }
      seen := seen + named.value;
    }
    assert fields[..|fields|] == fields;
    return Some(seen);
  }

  method CollectLine(values: seq<Value>) returns (r: Option<set<Address>>)
    ensures r == if AllReadable(values) then Some(Named(values)) else None
  {
    var seen: set<Address> := {};
    for j := 0 to |values|
      invariant AllReadable(values[..j]) && seen == Named(values[..j])
    {
      assert values[..j + 1] == values[..j] + [values[j]];
      if values[j].Malformed? {
        assert values[j] in values;
        return None;
      }
      seen := seen + set a | a in Listed(values[j]) && a != "";
    }
    assert values[..|values|] == values;
    return Some(seen);
  }

  /** Several fields together name what each of them names. */
  lemma FieldByField(h: Header, fields: seq<Field>, i: nat)
    requires i < |fields|
    ensures Readable(h, fields[..i + 1]) <==> Readable(h, fields[..i]) && Readable(h, [fields[i]])
    ensures AllNamed(h, fields[..i + 1]) == AllNamed(h, fields[..i]) + AllNamed(h, [fields[i]])
    ensures Readable(h, fields) ==> Readable(h, [fields[i]])
    ensures fields[i] !in h.lines ==> Readable(h, [fields[i]]) && AllNamed(h, [fields[i]]) == {}
  {
    assert fields[..i + 1] == fields[..i] + [fields[i]];
    assert fields[i] in fields;
  }

  // ---- Aliases ---------------------------------------------------------------------------

  predicate Single(ids: seq<int>) {
    |ids| == 1 && ids[0] > 0
  }

  predicate AllSingle(addresses: set<Address>, aliases: Aliases) {
    forall a <- addresses :: a in aliases ==> Single(aliases[a])
  }

  function IDs(addresses: set<Address>, aliases: Aliases): set<int> {
    set a <- addresses | a in aliases && |aliases[a]| > 0 :: aliases[a][0]
  }

  /** `aliasIDsForAddresses`, whose sorted list is modelled as a set. */
  method AliasIDsForAddresses(addresses: set<Address>, aliases: Aliases) returns (r: Option<set<int>>)
    ensures r == if AllSingle(addresses, aliases) then Some(IDs(addresses, aliases)) else None
  {
    var seen: set<int> := {};
    var rest := addresses;
    while rest != {}
      invariant rest <= addresses && AllSingle(addresses - rest, aliases) && seen == IDs(addresses - rest, aliases)
      decreases rest
    {
      var address :| address in rest;
      ghost var done := addresses - rest;
      rest := rest - {address};
      assert addresses - rest == done + {address};
      if address in aliases {
        if !Single(aliases[address]) {
          return None;
        }
        seen := seen + {aliases[address][0]};
      }
    }
    assert addresses - rest == addresses;
    return Some(seen);
  }

  // ---- The iCloud delivery chain ---------------------------------------------------------

  function Target(t: Option<Address>): set<Address> {
    if t.Some? && t.value != "" then {t.value} else {}
  }

  /** `iCloudRouteAddresses`. */
  function RouteTargets(account: Account): set<Address> {
    Target(account.emailTarget) + (if account.forwarded then Target(account.usernameTarget) else {})
  }

  /** `iCloudFinalDeliveryTargets`: what proves delivery to the mailbox being read. */
  function FinalTargets(account: Account): set<Address> {
    Target(if account.forwarded then account.usernameTarget else account.emailTarget)
  }

  predicate Meets(addresses: set<Address>, targets: set<Address>) {
    addresses * targets != {}
  }

  /** A configured final target in a readable set of strong headers. */
  predicate ConfiguredTargetSeen(h: Header, account: Account) {
    Readable(h, STRONG) && Meets(AllNamed(h, STRONG), FinalTargets(account))
  }

  /** The scanning loop of `hasConfiguredICloudTargetHeader` and of
      `hmeRouteMatchesForwardTarget`: absent fields are skipped, an unreadable one ends it. */
  method ScanFields(h: Header, fields: seq<Field>, wanted: Address, targets: set<Address>)
    returns (readable: bool, foundWanted: bool, foundTarget: bool)
    ensures readable <==> Readable(h, fields)
    ensures readable ==> (foundWanted <==> wanted in AllNamed(h, fields)) && (foundTarget <==> Meets(AllNamed(h, fields), targets))
  {
    foundWanted, foundTarget := false, false;
    for i := 0 to |fields|
      invariant Readable(h, fields[..i])
      invariant foundWanted <==> wanted in AllNamed(h, fields[..i])
      invariant foundTarget <==> Meets(AllNamed(h, fields[..i]), targets)
    {
      FieldByField(h, fields, i);
      if fields[i] in h.lines {
        var addresses := AddressesFromHeaders(h, [fields[i]]);
        if addresses.None? {
          return false, false, false;
        }
        foundWanted := foundWanted || wanted in addresses.value;
        foundTarget := foundTarget || Meets(addresses.value, targets);
        MeetsUnion(AllNamed(h, fields[..i]), addresses.value, targets);
      } else {
        MeetsUnion(AllNamed(h, fields[..i]), {}, targets);
      }
    }
    assert fields[..|fields|] == fields;
    return true, foundWanted, foundTarget;
  }

  lemma MeetsUnion(a: set<Address>, b: set<Address>, targets: set<Address>)
    ensures Meets(a + b, targets) <==> Meets(a, targets) || Meets(b, targets)
    ensures !Meets({}, targets)
  {
    assert (a + b) * targets == a * targets + b * targets;
  }

  /** `hasConfiguredICloudTargetHeader`. */
  method HasConfiguredTargetHeader(h: Header, account: Account) returns (found: bool)
    ensures found <==> ConfiguredTargetSeen(h, account)
  {
    var targets := FinalTargets(account);
    if targets == {} {
      return false;
    }
    var readable, wanted;
    readable, wanted, found := ScanFields(h, STRONG, "", targets);
    found := readable && found;
  }

  predicate ForwardTargetMatches(h: Header, route: Route, account: Account)
    requires route.Route?
  {
    if route.forward == account.email then !account.forwarded || ConfiguredTargetSeen(h, account)
    else if !account.forwarded then false
    else if route.forward == account.username then ConfiguredTargetSeen(h, account)
    else ConfiguredTargetSeen(h, account) && route.forward in AllNamed(h, STRONG)
  }

  /** `hmeRouteMatchesForwardTarget`. */
  method RouteMatchesForwardTarget(h: Header, route: Route, account: Account) returns (matches: bool)
    requires route.Route?
    ensures matches <==> ForwardTargetMatches(h, route, account)
  {
    if route.forward == account.email {
      if !account.forwarded {
        return true;
      }
      matches := HasConfiguredTargetHeader(h, account);
      return;
    }
    if !account.forwarded {
      return false;
    }
    if route.forward == account.username {
      matches := HasConfiguredTargetHeader(h, account);
      return;
    }
    var readable, foundRouteAddress, foundConfiguredTarget := ScanFields(h, STRONG, route.forward, FinalTargets(account));
    return readable && foundRouteAddress && foundConfiguredTarget;
  }

  // ---- The other checks on a route -------------------------------------------------------

  /** `hmeRouteMatchesVisibleRecipient`. */
  predicate VisibleMatches(h: Header, route: Route)
    requires route.Route?
  {
    var fields := [if route.role.InCc? then Cc else To];
    Readable(h, fields) && route.private in AllNamed(h, fields)
  }

  /** `hmeRouteMatchesOriginalRecipient`: every RFC 822 recipient belongs to the chain. */
  predicate OriginalMatches(h: Header, route: Route, account: Account)
    requires route.Route?
  {
    && (forall f <- RFC822 :: f in h.lines ==> Readable(h, [f]) && AllNamed(h, [f]) != {})
    && AllNamed(h, RFC822) <= {route.forward} + RouteTargets(account)
  }

  /** `hmeRouteHasUnexpectedStrongRecipient`. */
  predicate UnexpectedStrong(h: Header, route: Route, account: Account)
    requires route.Route?
  {
    !Readable(h, STRONG) || !(AllNamed(h, STRONG) <= {route.private, route.forward} + RouteTargets(account))
  }

  /** `hmeRouteHasConflictingAlias`, over the fields that are not RFC 822 recipients. */
  predicate ConflictingAlias(h: Header, route: Route, aliases: Aliases)
    requires route.Route?
  {
    !Readable(h, CONFLICTING) || exists a <- AllNamed(h, CONFLICTING) :: a != route.private && a != route.forward && a in aliases
  }

  // ---- Classification --------------------------------------------------------------------

  /** Strong recipients that are not aliases must belong to the account's delivery chain, and
      a forwarded mailbox must be named among them. */
  function StrongIDs(addresses: set<Address>, aliases: Aliases, account: Account): Option<set<int>> {
    var others := set a <- addresses | a !in aliases;
    if !AllSingle(addresses, aliases) || !(others <= RouteTargets(account)) then None
    else if account.forwarded && !Meets(others, FinalTargets(account)) then None
    else Some(IDs(addresses, aliases))
  }

  /** `iCloudStrongAliasIDs`. */
  method ICloudStrongAliasIDs(addresses: set<Address>, aliases: Aliases, account: Account) returns (r: Option<set<int>>)
    ensures r == StrongIDs(addresses, aliases, account)
  {
    var ids := AliasIDsForAddresses(addresses, aliases);
    if ids.None? {
      return None;
    }
    var routeTargets, finalTargets := RouteTargets(account), FinalTargets(account);
    var foundFinalTarget := false;
    ghost var others := set a <- addresses | a !in aliases;
    var rest := addresses;
    while rest != {}
      invariant rest <= addresses && others - rest <= routeTargets
      invariant foundFinalTarget <==> Meets(others - rest, finalTargets)
      decreases rest
    {
      var address :| address in rest;
      ghost var before := others - rest;
      rest := rest - {address};
      if address in aliases {
        assert others - rest == before;
      } else {
        assert others - rest == before + {address};
        if address !in routeTargets {
          assert address in others;
          return None;
        }
        MeetsUnion(before, {address}, finalTargets);
        assert Meets({address}, finalTargets) <==> address in finalTargets;
        foundFinalTarget := foundFinalTarget || address in finalTargets;
      }
    }
    assert others - rest == others;
    if account.forwarded && !foundFinalTarget {
      return None;
    }
    return ids;
  }

  /** `iCloudDeliveryTargetsOnly`. */
  predicate DeliveryTargetsOnly(addresses: set<Address>, account: Account) {
    && addresses != {} && addresses <= RouteTargets(account)
    && (!account.forwarded || Meets(addresses, FinalTargets(account)))
  }

  /** `visibleAliasIDs`. */
  function VisibleIDs(h: Header, aliases: Aliases): Option<set<int>> {
    if !HasAny(h, WEAK) then Some({})
    else if !Readable(h, WEAK) || !AllSingle(AllNamed(h, WEAK), aliases) then None
    else Some(IDs(AllNamed(h, WEAK), aliases))
  }

  function RouteIDs(route: Route, aliases: Aliases): Option<set<int>>
    requires route.Route?
  {
    if route.private !in aliases || |aliases[route.private]| == 0 then Some({})
    else if |aliases[route.private]| != 1 then None
    else if aliases[route.private][0] == 0 then Some({})
    else Some({aliases[route.private][0]})
  }

  /** `classifyICloudRecipientAliases`; no value means indeterminate. */
  function ClassifyICloud(h: Header, aliases: Aliases, account: Account, allowWeak: bool): Option<set<int>> {
    match h.route
    case BadRoute => None
    case Route(_, _, _) =>
      if account.email == "" || !ForwardTargetMatches(h, h.route, account) || !VisibleMatches(h, h.route)
        || !OriginalMatches(h, h.route, account) || UnexpectedStrong(h, h.route, account)
        || ConflictingAlias(h, h.route, aliases)
      then None
      else RouteIDs(h.route, aliases)
    case NoRoute =>
      if HasAny(h, STRONG) then
        if !Readable(h, STRONG) then None
        else
          var strong := StrongIDs(AllNamed(h, STRONG), aliases, account);
          var visible := VisibleIDs(h, aliases);
          if strong.None? || visible.None? then None
          else if strong.value != {} then
            if visible.value != {} && strong.value != visible.value then None else strong
          else if !allowWeak || !DeliveryTargetsOnly(AllNamed(h, STRONG), account) then Some({})
          else visible
      else if !allowWeak then Some({})
      else if !Readable(h, WEAK) || !AllSingle(AllNamed(h, WEAK), aliases) then None
      else Some(IDs(AllNamed(h, WEAK), aliases))
  }

  /** The method form, calling the loops above in the order the source does. */
  method ClassifyICloudRecipientAliases(h: Header, aliases: Aliases, account: Account, allowWeak: bool) returns (r: Option<set<int>>)
    ensures r == ClassifyICloud(h, aliases, account, allowWeak)
  {
    if h.route.BadRoute? {
      return None;
    }
    if h.route.Route? {
      var matches := RouteMatchesForwardTarget(h, h.route, account);
      if account.email == "" || !matches || !VisibleMatches(h, h.route) || !OriginalMatches(h, h.route, account)
        || UnexpectedStrong(h, h.route, account) || ConflictingAlias(h, h.route, aliases)
      {
        return None;
      }
      return RouteIDs(h.route, aliases);
    }
    if HasAny(h, STRONG) {
      var strongAddresses := AddressesFromHeaders(h, STRONG);
      if strongAddresses.None? {
        return None;
      }
      var strongIDs := ICloudStrongAliasIDs(strongAddresses.value, aliases, account);
      if strongIDs.None? {
        return None;
      }
      var visibleIDs := VisibleIDs(h, aliases);
      if visibleIDs.None? {
        return None;
      }
      if strongIDs.value != {} {
        if visibleIDs.value != {} && strongIDs.value != visibleIDs.value {
          return None;
        }
        return strongIDs;
      }
      if !allowWeak || !DeliveryTargetsOnly(strongAddresses.value, account) {
        return Some({});
      }
      return visibleIDs;
    }
    if !allowWeak {
      return Some({});
    }
    var weakAddresses := AddressesFromHeaders(h, WEAK);
    if weakAddresses.None? {
      return None;
    }
    r := AliasIDsForAddresses(weakAddresses.value, aliases);
  }

  // ---- Custom mailboxes ------------------------------------------------------------------

  /** `customRecipientAddresses`: the first tier present decides, readable or not. */
  function CustomAddresses(h: Header, tiers: seq<seq<Field>>, allowWeak: bool): Option<set<Address>>
    decreases |tiers|
  {
    if tiers == [] then
      if !allowWeak || !HasAny(h, WEAK) then Some({})
      else if Readable(h, WEAK) && AllNamed(h, WEAK) != {} then Some(AllNamed(h, WEAK))
      else None
    else if HasAny(h, tiers[0]) then
      if Readable(h, tiers[0]) && AllNamed(h, tiers[0]) != {} then Some(AllNamed(h, tiers[0])) else None
    else CustomAddresses(h, tiers[1..], allowWeak)
  }

  predicate OneAliasEach(addresses: set<Address>, aliases: Aliases) {
    && (forall a <- addresses :: a in aliases && Single(aliases[a]))
    && (forall a <- addresses, b <- addresses :: a in aliases && b in aliases && aliases[a] == aliases[b] ==> a == b)
  }

  /** `classifyCustomRecipientAliases`. */
  function ClassifyCustom(h: Header, aliases: Aliases, allowWeak: bool): Option<set<int>> {
    var addresses := CustomAddresses(h, TIERS, allowWeak);
    if addresses.None? || !OneAliasEach(addresses.value, aliases) then None
    else Some(IDs(addresses.value, aliases))
  }

  /** The tier loop of `customRecipientAddresses`. */
  method CustomRecipientAddresses(h: Header, tiers: seq<seq<Field>>, allowWeak: bool) returns (r: Option<set<Address>>)
    ensures r == CustomAddresses(h, tiers, allowWeak)
  {
    for i := 0 to |tiers|
      invariant CustomAddresses(h, tiers, allowWeak) == CustomAddresses(h, tiers[i..], allowWeak)
    {
      assert tiers[i..][1..] == tiers[i + 1..];
      if HasAny(h, tiers[i]) {
        r := AddressesFromHeaders(h, tiers[i]);
        return if r.Some? && r.value != {} then r else None;
      }
    }
    if !allowWeak || !HasAny(h, WEAK) {
      return Some({});
    }
    r := AddressesFromHeaders(h, WEAK);
    return if r.Some? && r.value != {} then r else None;
  }

  /** `classifyCustomRecipientAliases`: every address an alias of its own. */
  method ClassifyCustomRecipientAliases(h: Header, aliases: Aliases, allowWeak: bool) returns (r: Option<set<int>>)
    ensures r == ClassifyCustom(h, aliases, allowWeak)
  {
    var found := CustomRecipientAddresses(h, TIERS, allowWeak);
    if found.None? {
      return None;
    }
    var seenIDs: map<int, Address> := map[];
    var rest := found.value;
    while rest != {}
      invariant rest <= found.value && OneAliasEach(found.value - rest, aliases)
      invariant seenIDs.Keys == IDs(found.value - rest, aliases)
      invariant forall id <- seenIDs :: seenIDs[id] in found.value - rest && aliases[seenIDs[id]] == [id]
      decreases rest
    {
      var address :| address in rest;
      ghost var done := found.value - rest;
      rest := rest - {address};
      assert found.value - rest == done + {address};
      if address !in aliases || !Single(aliases[address]) {
        return None;
      }
      var id := aliases[address][0];
      assert aliases[address] == [id];
      if id in seenIDs {
        assert seenIDs[id] in found.value && seenIDs[id] != address;
        return None;
      }
      seenIDs := seenIDs[id := address];
    }
    assert found.value - rest == found.value;
    return Some(seenIDs.Keys);
  }

  /** `classifyRecipientAlias`: the single-alias projection; 0 is a determinate "nobody". */
  ghost function ClassifySingle(h: Header, aliases: Aliases, account: Account, mailbox: Mailbox, allowWeak: bool): Option<int> {
    match mailbox
    case Unsupported => None
    case Custom =>
      var ids := ClassifyCustom(h, aliases, allowWeak);
      if ids.None? || |ids.value| != 1 then None else Some(Only(ids.value))
    case ICloud =>
      if allowWeak && !HasAny(h, STRONG) && h.route.NoRoute? && (!Readable(h, WEAK) || |AllNamed(h, WEAK)| != 1) then None
      else
        var ids := ClassifyICloud(h, aliases, account, allowWeak);
        if ids.None? || |ids.value| > 1 then None
        else if ids.value == {} then Some(0)
        else Some(Only(ids.value))
  }

  // ---- What attribution guarantees -------------------------------------------------------

  /** In a forwarded mailbox an attribution that does not rest on the weak headers alone means
      that the configured IMAP address occurs in a strong header. */
  lemma ForwardedEvidence(h: Header, aliases: Aliases, account: Account, allowWeak: bool)
    requires account.forwarded
    requires !h.route.NoRoute? || HasAny(h, STRONG) || !allowWeak
    requires ClassifyICloud(h, aliases, account, allowWeak).Some? && ClassifyICloud(h, aliases, account, allowWeak).value != {}
    ensures account.usernameTarget.Some? && account.usernameTarget.value in AllNamed(h, STRONG)
  {
    var named := AllNamed(h, STRONG);
    if h.route.Route? {
      assert ConfiguredTargetSeen(h, account);
    } else {
      var others := set a <- named | a !in aliases;
      if Meets(others, FinalTargets(account)) {
        var a :| a in others * FinalTargets(account);
        assert a in named * FinalTargets(account);
      }
    }
    assert Meets(named, FinalTargets(account));
    var a :| a in named * FinalTargets(account);
  }

  /** Enabling weak matching never changes a non-empty result obtained without it. */
  lemma WeakIsConservative(h: Header, aliases: Aliases, account: Account, mailbox: Mailbox)
    ensures var strict := ClassifyICloud(h, aliases, account, false);
      strict.Some? && strict.value != {} ==> ClassifyICloud(h, aliases, account, true) == strict
    ensures var strict := ClassifyCustom(h, aliases, false);
      strict.Some? && strict.value != {} ==> ClassifyCustom(h, aliases, true) == strict
    ensures var strict := ClassifySingle(h, aliases, account, mailbox, false);
      strict.Some? && strict.value != 0 ==> ClassifySingle(h, aliases, account, mailbox, true) == strict
  {
    CustomWeakIsConservative(h, TIERS);
    assert IDs({}, aliases) == {};
  }

  lemma {:induction false} CustomWeakIsConservative(h: Header, tiers: seq<seq<Field>>)
    ensures var strict := CustomAddresses(h, tiers, false);
      strict == Some({}) || CustomAddresses(h, tiers, true) == strict
    decreases |tiers|
  {
    if tiers != [] && !HasAny(h, tiers[0]) {
      CustomWeakIsConservative(h, tiers[1..]);
    }
  }

  /** The address belongs to this alias and to no other. */
  predicate Belongs(a: Address, aliases: Aliases, id: int) {
    a in aliases && aliases[a] == [id]
  }

  lemma IDsBelong(addresses: set<Address>, aliases: Aliases, id: int)
    requires AllSingle(addresses, aliases) && id in IDs(addresses, aliases)
    ensures exists a :: a in addresses && Belongs(a, aliases, id)
  {
    var a :| a in addresses && a in aliases && |aliases[a]| > 0 && aliases[a][0] == id;
    assert Belongs(a, aliases, id);
  }

  /** By the route and the visible field it claims, by a strong header, or, with weak matching,
      by a visible header. */
  predicate Delivered(h: Header, allowWeak: bool, a: Address) {
    if h.route.Route? then a == h.route.private && (a in AllNamed(h, [To]) || a in AllNamed(h, [Cc]))
    else a in AllNamed(h, STRONG) || (allowWeak && a in AllNamed(h, WEAK))
  }

  /** Every attributed alias is named by the message. */
  lemma AttributionIsNamed(h: Header, aliases: Aliases, account: Account, allowWeak: bool, id: int)
    requires ClassifyICloud(h, aliases, account, allowWeak).Some? && id in ClassifyICloud(h, aliases, account, allowWeak).value
    ensures exists a :: Belongs(a, aliases, id) && Delivered(h, allowWeak, a)
  {
    if h.route.Route? {
      assert Belongs(h.route.private, aliases, id) && Delivered(h, allowWeak, h.route.private);
    } else if HasAny(h, STRONG) && StrongIDs(AllNamed(h, STRONG), aliases, account).value != {} {
      IDsBelong(AllNamed(h, STRONG), aliases, id);
      var a :| a in AllNamed(h, STRONG) && Belongs(a, aliases, id);
      assert Delivered(h, allowWeak, a);
    } else {
      IDsBelong(AllNamed(h, WEAK), aliases, id);
      var a :| a in AllNamed(h, WEAK) && Belongs(a, aliases, id);
      assert Delivered(h, allowWeak, a);
    }
  }

  /** In a custom mailbox the attributed aliases are exactly those of one tier, one per address,
      and a tier that is present is never passed over. */
  lemma {:induction false} FirstTierDecides(h: Header, tiers: seq<seq<Field>>, allowWeak: bool, k: nat)
    requires k < |tiers| && HasAny(h, tiers[k]) && forall j :: 0 <= j < k ==> !HasAny(h, tiers[j])
    ensures CustomAddresses(h, tiers, allowWeak) ==
      if Readable(h, tiers[k]) && AllNamed(h, tiers[k]) != {} then Some(AllNamed(h, tiers[k])) else None
    decreases |tiers|
  {
    if k > 0 { FirstTierDecides(h, tiers[1..], allowWeak, k - 1); }
  }

  /** Whoever is attributed in a custom mailbox owns an address of the deciding tier, and every
      address of it owns somebody attributed. */
  lemma CustomAttributionIsExact(h: Header, aliases: Aliases, allowWeak: bool)
    requires ClassifyCustom(h, aliases, allowWeak).Some?
    ensures var addresses := CustomAddresses(h, TIERS, allowWeak).value; var ids := ClassifyCustom(h, aliases, allowWeak).value;
      && (forall a <- addresses :: exists id <- ids :: Belongs(a, aliases, id))
      && (forall id <- ids :: exists a <- addresses :: Belongs(a, aliases, id))
      && (forall a <- addresses, b <- addresses, id <- ids :: Belongs(a, aliases, id) && Belongs(b, aliases, id) ==> a == b)
  {
    var addresses := CustomAddresses(h, TIERS, allowWeak).value;
    var ids := ClassifyCustom(h, aliases, allowWeak).value;
    forall a | a in addresses ensures exists id <- ids :: Belongs(a, aliases, id) {
      assert Belongs(a, aliases, aliases[a][0]) && aliases[a][0] in ids;
    }
    forall id | id in ids ensures exists a <- addresses :: Belongs(a, aliases, id) {
      IDsBelong(addresses, aliases, id);
    }
  }

  /** A strong and a visible attribution never contradict each other, and nobody who is visible
      in To or Cc is left out. */
  lemma StrongAgreesWithVisible(h: Header, aliases: Aliases, account: Account, allowWeak: bool)
    requires h.route.NoRoute? && HasAny(h, STRONG)
    requires ClassifyICloud(h, aliases, account, allowWeak).Some? && ClassifyICloud(h, aliases, account, allowWeak).value != {}
    ensures VisibleIDs(h, aliases).Some?
    ensures VisibleIDs(h, aliases).value == {} || VisibleIDs(h, aliases).value == ClassifyICloud(h, aliases, account, allowWeak).value
    ensures var ids := ClassifyICloud(h, aliases, account, allowWeak).value;
      forall a <- AllNamed(h, WEAK) :: a in aliases ==> exists id <- ids :: Belongs(a, aliases, id)
  {
    var ids := ClassifyICloud(h, aliases, account, allowWeak).value;
    forall a | a in AllNamed(h, WEAK) && a in aliases ensures exists id <- ids :: Belongs(a, aliases, id) {
      assert Belongs(a, aliases, aliases[a][0]) && aliases[a][0] in VisibleIDs(h, aliases).value;
    }
  }

  /** The same for an attribution by route, up to the route's own forwarding address. */
  lemma RouteAgreesWithVisible(h: Header, aliases: Aliases, account: Account, allowWeak: bool)
    requires h.route.Route? && ClassifyICloud(h, aliases, account, allowWeak).Some?
    requires ClassifyICloud(h, aliases, account, allowWeak).value != {}
    ensures var ids := ClassifyICloud(h, aliases, account, allowWeak).value;
      forall a <- AllNamed(h, WEAK) :: a in aliases ==> a == h.route.forward || exists id <- ids :: Belongs(a, aliases, id)
  {
    var ids := ClassifyICloud(h, aliases, account, allowWeak).value;
    forall a | a in AllNamed(h, WEAK) && a in aliases && a != h.route.forward ensures exists id <- ids :: Belongs(a, aliases, id) {
      assert a == h.route.private;
      assert Belongs(a, aliases, aliases[a][0]) && aliases[a][0] in ids;
    }
  }

  /** The guard of the single-alias projection: weak headers alone decide only if they name
      exactly one address. */
  predicate SingleIsDecisive(h: Header, allowWeak: bool) {
    allowWeak && !HasAny(h, STRONG) && h.route.NoRoute? ==> Readable(h, WEAK) && |AllNamed(h, WEAK)| == 1
  }

  /** The projection names an alias exactly when the archive classification names only it and the
      guard holds; it says "nobody" exactly when that says so under the guard. */
  lemma SingleIsProjection(h: Header, aliases: Aliases, account: Account, allowWeak: bool, id: int)
    requires id != 0
    ensures ClassifySingle(h, aliases, account, ICloud, allowWeak) == Some(id) <==>
      SingleIsDecisive(h, allowWeak) && ClassifyICloud(h, aliases, account, allowWeak) == Some({id})
    ensures ClassifySingle(h, aliases, account, ICloud, allowWeak) == Some(0) <==>
      SingleIsDecisive(h, allowWeak) && ClassifyICloud(h, aliases, account, allowWeak) == Some({})
  {
    var ids := ClassifyICloud(h, aliases, account, allowWeak);
    if ids.Some? && 0 in ids.value {
      AttributionIsNamed(h, aliases, account, allowWeak, 0);
      assert false;
    }
    if ids.Some? && |ids.value| == 1 {
      assert ids.value == {Only(ids.value)};
      assert Only(ids.value) in ids.value;
    }
    assert |{id}| == 1;
    if ids == Some({id}) { assert Only({id}) in {id}; }
  }
}

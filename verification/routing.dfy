/** The masters of a configuration and the table that routes unit ids to them (modbus_gateway.cpp, router.cpp, config.cpp). */
module Routing {
  import opened Messages
  import opened UnitIds

  /** std::numeric_limits<UnitId>::max(): the table has no entry for unit id 255. */
  const TABLE_SIZE: nat := 255

  class Router {
    const routeMap: array<ActorId>

    predicate Valid() {
      routeMap.Length == TABLE_SIZE
    }

    constructor (defaultId: ActorId)
      ensures Valid() && fresh(routeMap)
      ensures forall u :: 0 <= u < TABLE_SIZE ==> routeMap[u] == defaultId
    {
      routeMap := new ActorId[TABLE_SIZE](_ => defaultId);
    }

    function Route(unitId: Byte): ActorId
      requires Valid() && unitId < TABLE_SIZE
      reads routeMap
    {
      routeMap[unitId]
    }

    method Set(unitId: Byte, actorId: ActorId)
      requires Valid() && unitId < TABLE_SIZE
      modifies routeMap
      ensures routeMap[..] == old(routeMap[..])[unitId := actorId]
    {
      routeMap[unitId] := actorId;
    }
  }

  // ---------- masters ----------

  datatype TransportType = TcpClient | RtuMaster | TcpServer | RtuSlave

  datatype MasterConfig = MasterConfig(transport: TransportType, unitIdSet: seq<Interval>)

  /** A created master: its ranges and the id under which the exchange has registered it. */
  datatype Master = Master(unitIdSet: seq<Interval>, id: ActorId)

  predicate IsMaster(c: MasterConfig) {
    c.transport.TcpClient? || c.transport.RtuMaster?
  }

  predicate IsDefault(m: Master) {
    m.unitIdSet == []
  }

  /** The masters in configured order. */
  function Created(configs: seq<MasterConfig>, ids: seq<ActorId>): (masters: seq<Master>)
    requires |configs| == |ids|
    ensures |masters| == |configs|
    ensures forall k :: 0 <= k < |configs| ==> masters[k] == Master(configs[k].unitIdSet, ids[k])
  {
    seq(|configs|, i requires 0 <= i < |configs| => Master(configs[i].unitIdSet, ids[i]))
  }

  /** The default masters, the latest first. */
  function Defaults(masters: seq<Master>): seq<Master> {
    if masters == [] then []
    else
      var front, last := masters[..|masters| - 1], masters[|masters| - 1];
      if IsDefault(last) then [last] + Defaults(front) else Defaults(front)
  }

  /** The masters that have ranges, in configured order. */
  function Others(masters: seq<Master>): seq<Master> {
    if masters == [] then []
    else
      var front, last := masters[..|masters| - 1], masters[|masters| - 1];
      if IsDefault(last) then Others(front) else Others(front) + [last]
  }

  function Arranged(masters: seq<Master>): seq<Master> {
    Defaults(masters) + Others(masters)
  }

  lemma {:induction false} ArrangedIsPermutation(masters: seq<Master>)
    ensures multiset(Arranged(masters)) == multiset(masters)
    ensures forall m :: m in Defaults(masters) <==> m in masters && IsDefault(m)
    ensures forall m :: m in Others(masters) <==> m in masters && !IsDefault(m)
    ensures forall m :: m in Arranged(masters) <==> m in masters
  {
    if masters != [] {
      var front, last := masters[..|masters| - 1], masters[|masters| - 1];
      ArrangedIsPermutation(front);
      assert masters == front + [last];
    }
  }

  lemma {:induction false} NoDefault(masters: seq<Master>)
    requires forall j :: 0 <= j < |masters| ==> !IsDefault(masters[j])
    ensures Defaults(masters) == [] && Others(masters) == masters
  {
    hide IsDefault;
    if masters != [] {
      NoDefault(masters[..|masters| - 1]);
    }
  }

  /** A single default comes first, and all others follow in configured order. */
  lemma {:induction false} OneDefault(masters: seq<Master>, i: nat)
    requires i < |masters| && IsDefault(masters[i])
    requires forall j :: 0 <= j < |masters| && j != i ==> !IsDefault(masters[j])
    ensures Defaults(masters) == [masters[i]] && Others(masters) == masters[..i] + masters[i + 1..]
  {
    var front, last := masters[..|masters| - 1], masters[|masters| - 1];
    if i == |front| {
      NoDefault(front);
    } else {
      OneDefault(front, i);
      assert masters[i + 1..] == front[i + 1..] + [last];
    }
  }

  /** The loop of MakeMasters: None is the exception for a configuration that is not one of a master. */
  method MakeMasters(configs: seq<MasterConfig>, ids: seq<ActorId>) returns (result: Option<seq<Master>>)
    requires |configs| == |ids|
    ensures result.Some? <==> forall i :: 0 <= i < |configs| ==> IsMaster(configs[i])
    ensures result.Some? ==> result.value == Arranged(Created(configs, ids))
  {
    var masters: seq<Master> := [];
    ghost var created := Created(configs, ids);
    for i := 0 to |configs|
      invariant forall k :: 0 <= k < i ==> IsMaster(configs[k])
      invariant masters == Arranged(created[..i])
    {
      if !IsMaster(configs[i]) {
        return None;
      }
      var client := Master(configs[i].unitIdSet, ids[i]);
      assert created[..i + 1][..i] == created[..i];
      if configs[i].unitIdSet == [] {
        masters := [client] + masters;
      } else {
        masters := masters + [client];
      }
    }
    assert created[..|configs|] == created;
    return Some(masters);
  }

  /** Config::Validate: at most one of the configured masters is a default. */
  method Validate(configs: seq<MasterConfig>) returns (ok: bool)
    ensures ok <==> forall i, j :: 0 <= i < j < |configs| && IsMaster(configs[i]) && IsMaster(configs[j]) ==>
                      configs[i].unitIdSet != [] || configs[j].unitIdSet != []
  {
    var defaultIdIndexes: seq<nat> := [];
    for i := 0 to |configs|
      invariant forall k :: 0 <= k < i ==>
                  (k in defaultIdIndexes <==> IsMaster(configs[k]) && configs[k].unitIdSet == [])
      invariant forall k :: 0 <= k < |defaultIdIndexes| ==> defaultIdIndexes[k] < i
      invariant forall k, l :: 0 <= k < l < |defaultIdIndexes| ==> defaultIdIndexes[k] < defaultIdIndexes[l]
    {
      if IsMaster(configs[i]) && configs[i].unitIdSet == [] {
        defaultIdIndexes := defaultIdIndexes + [i];
      }
    }
    ok := |defaultIdIndexes| <= 1;
    if !ok {
      var i, j := defaultIdIndexes[0], defaultIdIndexes[1];
      assert i in defaultIdIndexes && j in defaultIdIndexes;
    }
  }

  // ---------- the routes ----------

  predicate Covers(m: Master, u: int) {
    exists i :: 0 <= i < |m.unitIdSet| && Contains(m.unitIdSet[i], u)
  }

  /** What the table is to hold: the last master in the list that covers the unit id, or else the default. */
  function Lookup(masters: seq<Master>, otherwise: ActorId, u: int): ActorId {
    if masters == [] then otherwise
    else if Covers(masters[|masters| - 1], u) then masters[|masters| - 1].id
    else Lookup(masters[..|masters| - 1], otherwise, u)
  }

  lemma {:induction false} LookupIsLast(masters: seq<Master>, otherwise: ActorId, u: int)
    ensures (forall k :: 0 <= k < |masters| ==> !Covers(masters[k], u)) ==> Lookup(masters, otherwise, u) == otherwise
    ensures forall k :: 0 <= k < |masters| && Covers(masters[k], u) &&
                        (forall l :: k < l < |masters| ==> !Covers(masters[l], u)) ==>
                          Lookup(masters, otherwise, u) == masters[k].id
  {
    if masters != [] {
      var front := masters[..|masters| - 1];
      LookupIsLast(front, otherwise, u);
      assert forall k :: 0 <= k < |front| ==> front[k] == masters[k];
    }
  }

  /** The id that unit ids without a master get; noId is exchange::defaultId. */
  function Otherwise(masters: seq<Master>, noId: ActorId): ActorId
    requires masters != []
  {
    if IsDefault(masters[0]) then masters[0].id else noId
  }

  predicate InTable(m: Master) {
    forall i :: 0 <= i < |m.unitIdSet| ==> m.unitIdSet[i].end < TABLE_SIZE
  }

  /** The last of the first n ranges of m decides, and below it what the table held before. */
  predicate Filled(table: seq<ActorId>, before: seq<ActorId>, m: Master, n: nat)
    requires |table| == |before| && n <= |m.unitIdSet|
  {
    forall u :: 0 <= u < |table| ==>
      table[u] == if exists i :: 0 <= i < n && Contains(m.unitIdSet[i], u) then m.id else before[u]
  }

  /** The inner loops of MakeRouter, over the ranges of one master; the loop variable has eight bits. */
  method SetRanges(router: Router, m: Master)
    requires router.Valid() && InTable(m)
    modifies router.routeMap
    ensures Filled(router.routeMap[..], old(router.routeMap[..]), m, |m.unitIdSet|)
  {
    for n := 0 to |m.unitIdSet|
      invariant Filled(router.routeMap[..], old(router.routeMap[..]), m, n)
    {
      var range := m.unitIdSet[n];
      ghost var before := router.routeMap[..];
      var unitId: Byte := range.begin;
      while unitId <= range.end
        invariant unitId <= range.end + 1 || unitId == range.begin
        invariant range.begin <= unitId
        invariant forall u :: 0 <= u < TABLE_SIZE ==>
                    router.routeMap[u] == if range.begin <= u < unitId then m.id else before[u]
        decreases 0x100 - unitId
      {
        router.Set(unitId, m.id);
        unitId := (unitId + 1) % 0x100;
      }
      forall u | 0 <= u < TABLE_SIZE
        ensures router.routeMap[u] ==
                if exists i :: 0 <= i < n + 1 && Contains(m.unitIdSet[i], u) then m.id else old(router.routeMap[u])
      {
        assert router.routeMap[u] == if Contains(m.unitIdSet[n], u) then m.id else before[u];
      }
    }
  }

  /** The unit id that the eight-bit loop variable has after n steps. */
  function After(begin: Byte, n: nat): Byte {
    if n == 0 then begin else (After(begin, n - 1) + 1) % 0x100
  }

  lemma {:induction false} AfterIs(begin: Byte, n: nat)
    ensures begin + n < 0x100 ==> After(begin, n) == begin + n
  {
    if n > 0 {
      AfterIs(begin, n - 1);
    }
  }

  /** The guard of the inner loop of MakeRouter holds forever if and only if the range ends at 255; otherwise it fails after as
      many steps as the range has unit ids. */
  lemma LoopEndsIff(range: Interval)
    requires range.begin <= range.end
    ensures (forall n: nat :: After(range.begin, n) <= range.end) <==> range.end == TABLE_SIZE
    ensures range.end < TABLE_SIZE ==> After(range.begin, range.end - range.begin + 1) == range.end + 1
  {
    AfterIs(range.begin, range.end - range.begin + 1);
  }

  /** The table: an entry for every unit id but 255. */
  function Table(masters: seq<Master>, noId: ActorId): (table: seq<ActorId>)
    requires masters != []
    ensures |table| == TABLE_SIZE
  {
    seq(TABLE_SIZE, u => Lookup(masters, Otherwise(masters, noId), u))
  }

  /** The compiled table agrees with the lookup on every unit id it has an entry for. */
  method MakeRouter(masters: seq<Master>, noId: ActorId) returns (router: Router?)
    requires forall k :: 0 <= k < |masters| ==> InTable(masters[k])
    ensures router == null <==> masters == []
    ensures router != null ==> fresh(router) && router.Valid()
    ensures router != null ==> forall u: Byte :: u < TABLE_SIZE ==>
                                 router.Route(u) == Lookup(masters, Otherwise(masters, noId), u)
    ensures router != null ==> router.routeMap[..] == Table(masters, noId)
  {
    if masters == [] {
      return null;
    }
    var start := 0;
    var filled: Router;
    if masters[0].unitIdSet == [] {
      filled := new Router(masters[0].id);
      start := 1;
      assert masters[..1][..0] == [];
    } else {
      filled := new Router(noId);
    }
    for k := start to |masters|
      invariant fresh(filled) && fresh(filled.routeMap) && filled.Valid()
      invariant forall u :: 0 <= u < TABLE_SIZE ==>
                  filled.routeMap[u] == Lookup(masters[..k], Otherwise(masters, noId), u)
    {
      SetRanges(filled, masters[k]);
      assert masters[..k + 1][..k] == masters[..k];
    }
    assert masters[..|masters|] == masters;
    router := filled;
  }

  // ---------- the order of the masters ----------

  /** The route of a configuration: MakeMasters, then MakeRouter. */
  function RouteOf(created: seq<Master>, noId: ActorId, u: int): ActorId
    requires created != []
  {
    Lookup(Arranged(created), Otherwise(Arranged(created), noId), u)
  }

  lemma {:induction false} LookupFinds(masters: seq<Master>, otherwise: ActorId, u: int) returns (k: int)
    ensures -1 <= k < |masters| && (forall l :: k < l < |masters| ==> !Covers(masters[l], u))
    ensures k >= 0 ==> Covers(masters[k], u) && Lookup(masters, otherwise, u) == masters[k].id
    ensures k < 0 ==> Lookup(masters, otherwise, u) == otherwise
  {
    k := |masters| - 1;
    while k >= 0 && !Covers(masters[k], u)
      invariant -1 <= k < |masters|
      invariant forall l :: k < l < |masters| ==> !Covers(masters[l], u)
    {
      k := k - 1;
    }
    LookupIsLast(masters, otherwise, u);
  }

  lemma {:induction false} LookupConcat(a: seq<Master>, b: seq<Master>, otherwise: ActorId, u: int)
    ensures Lookup(a + b, otherwise, u) == Lookup(b, Lookup(a, otherwise, u), u)
  {
    if b == [] {
      assert a + b == a;
    } else {
      assert (a + b)[..|a + b| - 1] == a + b[..|b| - 1];
      LookupConcat(a, b[..|b| - 1], otherwise, u);
    }
  }

  /** Masters without ranges can be left out. */
  lemma {:induction false} LookupOthers(created: seq<Master>, otherwise: ActorId, u: int)
    ensures Lookup(Others(created), otherwise, u) == Lookup(created, otherwise, u)
    ensures Lookup(Defaults(created), otherwise, u) == otherwise
  {
    if created != [] {
      var front, last := created[..|created| - 1], created[|created| - 1];
      LookupOthers(front, otherwise, u);
      if IsDefault(last) {
        LookupConcat([last], Defaults(front), otherwise, u);
        assert [last][..0] == [];
      } else {
        LookupConcat(Others(front), [last], otherwise, u);
        LookupConcat(front, [last], otherwise, u);
        assert created == front + [last];
      }
    }
  }

  lemma {:induction false} FirstIsLastDefault(created: seq<Master>, k: nat)
    requires k < |created| && IsDefault(created[k])
    requires forall l :: k < l < |created| ==> !IsDefault(created[l])
    ensures Defaults(created) != [] && Defaults(created)[0] == created[k]
  {
    if k < |created| - 1 {
      FirstIsLastDefault(created[..|created| - 1], k);
    }
  }

  /** The route in terms of the configured order: the last configured master that covers the unit id; or else, if there is one,
      the last configured default; or else none. */
  lemma RouteSelects(created: seq<Master>, noId: ActorId, u: int)
    requires created != []
    ensures forall k :: 0 <= k < |created| && Covers(created[k], u)
                        && (forall l :: k < l < |created| ==> !Covers(created[l], u)) ==>
              RouteOf(created, noId, u) == created[k].id
    ensures (forall k :: 0 <= k < |created| ==> !Covers(created[k], u)) ==>
              && (forall k :: 0 <= k < |created| && IsDefault(created[k])
                              && (forall l :: k < l < |created| ==> !IsDefault(created[l])) ==>
                    RouteOf(created, noId, u) == created[k].id)
              && ((forall k :: 0 <= k < |created| ==> !IsDefault(created[k])) ==> RouteOf(created, noId, u) == noId)
  {
    var list := Arranged(created);
    ArrangedIsPermutation(created);
    var otherwise := Otherwise(list, noId);
    LookupConcat(Defaults(created), Others(created), otherwise, u);
    LookupOthers(created, otherwise, u);
    LookupIsLast(created, otherwise, u);
    forall k | 0 <= k < |created| && IsDefault(created[k]) && (forall l :: k < l < |created| ==> !IsDefault(created[l]))
      ensures otherwise == created[k].id
    {
      FirstIsLastDefault(created, k);
    }
    if forall k :: 0 <= k < |created| ==> !IsDefault(created[k]) {
      NoDefault(created);
    }
  }

  // ---------- from the configuration to the table ----------

  predicate Has(c: MasterConfig, u: int) {
    exists i :: 0 <= i < |c.unitIdSet| && Contains(c.unitIdSet[i], u)
  }

  /** The k-th configuration is the last with a range that contains u. */
  predicate LastWith(configs: seq<MasterConfig>, u: int, k: nat) {
    k < |configs| && Has(configs[k], u) && forall l :: k < l < |configs| ==> !Has(configs[l], u)
  }

  /** The k-th configuration is the last without ranges. */
  predicate LastDefault(configs: seq<MasterConfig>, k: nat) {
    k < |configs| && configs[k].unitIdSet == [] && forall l :: k < l < |configs| ==> configs[l].unitIdSet != []
  }

  /** What the configuration promises: u goes to the actor made for the last configuration that has it, or else to the one made
      for the last configuration without ranges, or else nowhere. ids[k] is the actor made for configs[k]. */
  ghost predicate IsRoute(configs: seq<MasterConfig>, ids: seq<ActorId>, noId: ActorId, u: int, id: ActorId)
    requires |configs| == |ids|
  {
    && (forall k: nat :: LastWith(configs, u, k) ==> id == ids[k])
    && ((forall k :: 0 <= k < |configs| ==> !Has(configs[k], u)) ==>
          && (forall k: nat :: LastDefault(configs, k) ==> id == ids[k])
          && ((forall k :: 0 <= k < |configs| ==> configs[k].unitIdSet != []) ==> id == noId))
  }

  /** The promise leaves no choice. */
  lemma RouteIsUnique(configs: seq<MasterConfig>, ids: seq<ActorId>, noId: ActorId, u: int, a: ActorId, b: ActorId)
    requires |configs| == |ids| && IsRoute(configs, ids, noId, u, a) && IsRoute(configs, ids, noId, u, b)
    ensures a == b
  {
    var k := |configs| - 1;
    while k >= 0 && !Has(configs[k], u)
      invariant -1 <= k < |configs|
      invariant forall l :: k < l < |configs| ==> !Has(configs[l], u)
    {
      k := k - 1;
    }
    if k >= 0 {
      assert LastWith(configs, u, k);
    } else {
      var d := |configs| - 1;
      while d >= 0 && configs[d].unitIdSet != []
        invariant -1 <= d < |configs|
        invariant forall l :: d < l < |configs| ==> configs[l].unitIdSet != []
      {
        d := d - 1;
      }
      assert d >= 0 ==> LastDefault(configs, d);
    }
  }

  /** MakeMasters and MakeRouter together keep it. */
  lemma RouteOfConfiguration(configs: seq<MasterConfig>, ids: seq<ActorId>, noId: ActorId, u: int)
    requires |configs| == |ids| && configs != []
    ensures IsRoute(configs, ids, noId, u, RouteOf(Created(configs, ids), noId, u))
  {
    var created := Created(configs, ids);
    RouteSelects(created, noId, u);
    assert forall k :: 0 <= k < |configs| ==>
             (Covers(created[k], u) <==> Has(configs[k], u)) && (IsDefault(created[k]) <==> configs[k].unitIdSet == [])
             && created[k].id == ids[k];
  }

  /** The start of the gateway as far as the routes go; null stands for its exceptions. */
  method ConfigureRouter(configs: seq<MasterConfig>, ids: seq<ActorId>, noId: ActorId) returns (router: Router?)
    requires |configs| == |ids|
    requires forall k, i :: 0 <= k < |configs| && 0 <= i < |configs[k].unitIdSet| ==> configs[k].unitIdSet[i].end < TABLE_SIZE
    ensures router == null <==> configs == [] || exists k :: 0 <= k < |configs| && !IsMaster(configs[k])
    ensures router != null ==> fresh(router) && router.Valid()
    ensures router != null ==> forall u: Byte :: u < TABLE_SIZE ==> IsRoute(configs, ids, noId, u, router.Route(u))
    ensures router != null ==> router.routeMap[..] == Table(Arranged(Created(configs, ids)), noId)
  {
    var masters := MakeMasters(configs, ids);
    if masters.None? || masters.value == [] {
      return null;
    }
    ArrangedIsPermutation(Created(configs, ids));
    forall m | m in Created(configs, ids) ensures InTable(m) {
    }
    forall k | 0 <= k < |masters.value| ensures InTable(masters.value[k]) {
      assert masters.value[k] in masters.value;
    }
    router := MakeRouter(masters.value, noId);
    forall u: Byte | u < TABLE_SIZE ensures IsRoute(configs, ids, noId, u, router.Route(u)) {
      RouteOfConfiguration(configs, ids, noId, u);
    }
  }

  lemma RouteIsOfMember(created: seq<Master>, noId: ActorId, u: int)
    requires created != []
    ensures var r := RouteOf(created, noId, u);
            || (exists m :: m in created && Covers(m, u) && r == m.id)
            || ((forall m :: m in created ==> !Covers(m, u)) && (exists m :: m in created && IsDefault(m) && r == m.id))
            || ((forall m :: m in created ==> !Covers(m, u) && !IsDefault(m)) && r == noId)
  {
    var list := Arranged(created);
    ArrangedIsPermutation(created);
    var k := LookupFinds(list, Otherwise(list, noId), u);
    if k >= 0 {
      assert list[k] in created;
    } else {
      assert list[0] in created;
      forall m | m in created ensures !Covers(m, u) {
        assert m in list;
      }
      if m :| m in created && IsDefault(m) {
        assert list[0] in Defaults(created);
      }
    }
  }

  /** No two masters disagree about the route of u. */
  ghost predicate Unambiguous(created: seq<Master>, u: int) {
    && (forall m, n :: m in created && n in created && Covers(m, u) && Covers(n, u) ==> m.id == n.id)
    && (forall m, n :: m in created && n in created && IsDefault(m) && IsDefault(n) ==> m.id == n.id)
  }

  lemma SameMembers(a: seq<Master>, b: seq<Master>)
    requires multiset(a) == multiset(b)
    ensures forall m :: m in a <==> m in b
  {
    forall m ensures m in a <==> m in b {
      assert m in a <==> m in multiset(a);
      assert m in b <==> m in multiset(b);
    }
  }

  /** When the masters do not disagree, their order does not matter. */
  lemma OrderIsIrrelevant(created: seq<Master>, permuted: seq<Master>, noId: ActorId, u: int)
    requires created != [] && multiset(created) == multiset(permuted)
    requires Unambiguous(created, u)
    ensures permuted != [] && RouteOf(permuted, noId, u) == RouteOf(created, noId, u)
  {
    SameMembers(created, permuted);
    assert created[0] in permuted;
    RouteIsOfMember(created, noId, u);
    RouteIsOfMember(permuted, noId, u);
  }

  /** When two masters that cover u have different ids, some other order gives u another route. */
  lemma OrderMatters(created: seq<Master>, noId: ActorId, u: int, i: nat)
    requires i < |created| && Covers(created[i], u) && created[i].id != RouteOf(created, noId, u)
    ensures var permuted := created[..i] + created[i + 1..] + [created[i]];
            multiset(permuted) == multiset(created) && RouteOf(permuted, noId, u) != RouteOf(created, noId, u)
  {
    hide Otherwise;
    var rest := created[..i] + created[i + 1..];
    var permuted := rest + [created[i]];
    assert created == created[..i] + [created[i]] + created[i + 1..];
    assert permuted[..|permuted| - 1] == rest;
    assert Others(permuted) == Others(rest) + [created[i]];
    var list := Arranged(permuted);
    assert list[|list| - 1] == created[i];
  }

  // ---------- configurations the interval validator accepts ----------

  function RangesOf(created: seq<Master>): seq<seq<Interval>> {
    seq(|created|, i requires 0 <= i < |created| => created[i].unitIdSet)
  }

  lemma CoveringMeet(m: Master, n: Master, u: int)
    requires Covers(m, u) && Covers(n, u)
    ensures !Apart(m.unitIdSet, n.unitIdSet)
  {
    var i :| 0 <= i < |m.unitIdSet| && Contains(m.unitIdSet[i], u);
    var j :| 0 <= j < |n.unitIdSet| && Contains(n.unitIdSet[j], u);
    assert Meet(m.unitIdSet[i], n.unitIdSet[j]);
  }

  /** Over a configuration that the validator of unit id ranges accepts, every unit id has the same route whatever the order
      of the masters. */
  lemma AcceptedIsOrderFree(created: seq<Master>, permuted: seq<Master>, noId: ActorId, u: int)
    requires created != [] && multiset(created) == multiset(permuted)
    requires forall k, i :: 0 <= k < |created| && 0 <= i < |created[k].unitIdSet| ==> WellFormed(created[k].unitIdSet[i])
    requires UnitIds.Validate(RangesOf(created)).Some?
    ensures permuted != [] && RouteOf(permuted, noId, u) == RouteOf(created, noId, u)
  {
    var clients := RangesOf(created);
    ValidateIff(clients);
    forall m, n | m in created && n in created && ((Covers(m, u) && Covers(n, u)) || (IsDefault(m) && IsDefault(n)))
      ensures m.id == n.id
    {
      var k :| 0 <= k < |created| && created[k] == m;
      var l :| 0 <= l < |created| && created[l] == n;
      if k != l {
        if Covers(m, u) {
          assert Apart(clients[if k < l then k else l], clients[if k < l then l else k]);
          CoveringMeet(created[if k < l then k else l], created[if k < l then l else k], u);
        }
        assert false;
      }
    }
    OrderIsIrrelevant(created, permuted, noId, u);
  }
}

/** Unit id ranges of masters: their normal form (unit_id_range.cpp), and the validator that keeps the ranges of a
    configuration disjoint (validators.cpp). */
module UnitIds {
  import opened Messages

  /** The unit ids of slaves: section 2.2 of MODBUS over Serial Line, V1.02. */
  const UNIT_ID_MIN: Byte := 1
  const UNIT_ID_MAX: Byte := 247

  datatype Interval = Interval(begin: Byte, end: Byte)

  predicate Contains(r: Interval, u: int) {
    r.begin <= u <= r.end
  }

  /** The two shapes of a range in a configuration, after extraction. */
  datatype RangeSpec = Range(begin: Byte, end: Byte) | Value(value: Byte)

  class UnitIdRange {
    var begin: Byte
    var end: Byte

    /** Whatever order the bounds come in, the range is well-formed and covers everything between them. */
    constructor (spec: RangeSpec)
      ensures begin <= end
      ensures spec.Value? ==> View() == Interval(spec.value, spec.value)
      ensures spec.Range? ==> forall u :: Contains(View(), u) <==>
                                spec.begin <= u <= spec.end || spec.end <= u <= spec.begin
    {
      match spec {
        case Range(b, e) => begin, end := b, e;
        case Value(v) => begin, end := v, v;
      }
      new;
      if spec.Range? {
        Normalize();
      }
    }

    function View(): Interval
      reads this
    {
      Interval(begin, end)
    }

    method Normalize()
      modifies this
      ensures begin <= end && {begin, end} == {old(begin), old(end)}
    {
      if begin > end {
        begin, end := end, begin;
      }
    }
  }

  // ---------- the ordered set of ranges ----------

  /** UnitIdRangeComparator */
  predicate Less(a: Interval, b: Interval) {
    a.end < b.begin
  }

  predicate Meet(a: Interval, b: Interval) {
    a.begin <= b.end && b.begin <= a.end
  }

  predicate WellFormed(r: Interval) {
    UNIT_ID_MIN <= r.begin <= r.end <= UNIT_ID_MAX
  }

  /** The order in which std::set keeps its elements. */
  ghost predicate Ordered(s: seq<Interval>) {
    && (forall i :: 0 <= i < |s| ==> WellFormed(s[i]))
    && (forall i, j :: 0 <= i < j < |s| ==> Less(s[i], s[j]))
  }

  /** The position of the first element that is not less than x. */
  function LowerBound(s: seq<Interval>, x: Interval): (i: nat)
    ensures i <= |s| && (forall k :: 0 <= k < i ==> Less(s[k], x)) && (i < |s| ==> !Less(s[i], x))
  {
    if s == [] || !Less(s[0], x) then 0 else 1 + LowerBound(s[1..], x)
  }

  /** std::set::insert: x is refused when the element at its place is equivalent to it, that is, neither is less. */
  function Insert(s: seq<Interval>, x: Interval): Option<seq<Interval>> {
    var i := LowerBound(s, x);
    if i < |s| && !Less(x, s[i]) then None else Some(s[..i] + [x] + s[i..])
  }

  /** On a set of disjoint ranges, insertion succeeds if and only if the new range meets none of them, although only one of
      them is compared with it both ways; and the set stays disjoint. */
  lemma InsertIff(s: seq<Interval>, x: Interval)
    requires Ordered(s) && WellFormed(x)
    ensures Insert(s, x).Some? <==> forall i :: 0 <= i < |s| ==> !Meet(s[i], x)
    ensures Insert(s, x).Some? ==> Ordered(Insert(s, x).value)
    ensures Insert(s, x).Some? ==> forall y :: y in Insert(s, x).value <==> y == x || y in s
  {
    var i := LowerBound(s, x);
    if Insert(s, x).Some? {
      forall k | i <= k < |s| ensures Less(x, s[k]) {
        assert k > i ==> Less(s[i], s[k]);
      }
      var t := Insert(s, x).value;
      forall k, l | 0 <= k < l < |t| ensures Less(t[k], t[l]) {
        assert t[k] == if k < i then s[k] else if k == i then x else s[k - 1];
        assert t[l] == if l < i then s[l] else if l == i then x else s[l - 1];
      }
    } else {
      assert Meet(s[i], x);
    }
  }

  // ---------- the validator ----------

  /** The state of UnitIdRangeValidator; the counter is eight bits wide. */
  datatype Validation = Validation(unitIdSet: seq<Interval>, hasDefault: bool, counter: Byte)

  /** The value of a uint8_t after += with a difference of two uint8_t. */
  function Plus(a: Byte, b: int): Byte
    requires -0x100 < b < 0x100
  {
    if a + b < 0 then a + b + 0x100 else if a + b < 0x100 then a + b else a + b - 0x100
  }

  /** One range of one client: None is the exception for an intersection. */
  function Add(v: Validation, x: Interval): Option<Validation> {
    match Insert(v.unitIdSet, x)
    case None => None
    case Some(s) =>
      var added := if x.begin == x.end then 1 else x.end - x.begin;
      Some(v.(unitIdSet := s, counter := Plus(v.counter, added)))
  }

  function AddAll(v: Validation, ranges: seq<Interval>): Option<Validation>
    decreases |ranges|
  {
    if ranges == [] then Some(v)
    else
      match Add(v, ranges[0])
      case None => None
      case Some(w) => AddAll(w, ranges[1..])
  }

  /** All ranges of one client; a client without ranges is the default, of which there may be one. */
  function AddClient(v: Validation, ranges: seq<Interval>): Option<Validation> {
    if ranges != [] then AddAll(v, ranges)
    else if v.hasDefault then None
    else Some(v.(hasDefault := true))
  }

  /** CheckCoverage: false is the exception. */
  predicate CoverageOk(v: Validation) {
    !(v.counter < UNIT_ID_MAX - UNIT_ID_MIN && !v.hasDefault)
  }

  class UnitIdRangeValidator {
    var unitIdSet: seq<Interval>
    var defaultUnitIdsClient: bool
    var unitIdCounter: Byte

    constructor ()
      ensures View() == Validation([], false, 0)
    {
      unitIdSet, defaultUnitIdsClient, unitIdCounter := [], false, 0;
    }

    function View(): Validation
      reads this
    {
      Validation(unitIdSet, defaultUnitIdsClient, unitIdCounter)
    }

    method InsertClient(unitIdRanges: seq<Interval>) returns (ok: bool)
      modifies this
      ensures ok <==> AddClient(old(View()), unitIdRanges).Some?
      ensures ok ==> View() == AddClient(old(View()), unitIdRanges).value
    {
      if unitIdRanges == [] {
        if defaultUnitIdsClient {
          return false;
        }
        defaultUnitIdsClient := true;
      }
      ghost var start := View();
      var i := 0;
      while i < |unitIdRanges|
        invariant 0 <= i <= |unitIdRanges|
        invariant AddAll(View(), unitIdRanges[i..]) == AddAll(start, unitIdRanges)
      {
        var r := unitIdRanges[i];
        assert unitIdRanges[i..][0] == r && unitIdRanges[i..][1..] == unitIdRanges[i + 1..];
        var inserted := Insert(unitIdSet, r);
        if inserted.None? {
          return false;
        }
        unitIdSet := inserted.value;
        if r.begin == r.end {
          unitIdCounter := Plus(unitIdCounter, 1);
        } else {
          unitIdCounter := Plus(unitIdCounter, r.end - r.begin);
        }
        i := i + 1;
      }
      return true;
    }

    /** For a counter that is what the insertions make of it, the check passes if and only if there is a default client, or
        uncovered unit ids and long ranges add up to at most one. */
    predicate CheckCoverage()
      reads this
      ensures Counted(View()) ==> (CheckCoverage() <==> defaultUnitIdsClient || FewGaps(unitIdSet))
    {
      CoverageOkIff(View());
      !(unitIdCounter < UNIT_ID_MAX - UNIT_ID_MIN && !defaultUnitIdsClient)
    }
  }

  /** All clients of a configuration, one after the other. */
  function Validate(clients: seq<seq<Interval>>): Option<Validation> {
    if clients == [] then Some(Validation([], false, 0))
    else
      match Validate(clients[..|clients| - 1])
      case None => None
      case Some(v) => AddClient(v, clients[|clients| - 1])
  }

  // ---------- acceptance ----------

  ghost predicate Disjoint(ranges: seq<Interval>) {
    forall i, j :: 0 <= i < j < |ranges| ==> !Meet(ranges[i], ranges[j])
  }

  /** No range of one list meets a range of the other. */
  ghost predicate Apart(a: seq<Interval>, b: seq<Interval>) {
    forall x, y :: x in a && y in b ==> !Meet(x, y)
  }

  lemma OneMoreRange(first: Interval, rest: seq<Interval>)
    ensures Disjoint([first] + rest) <==> Disjoint(rest) && Apart([first], rest)
  {
    var ranges := [first] + rest;
    if Disjoint(ranges) {
      forall i | 0 <= i < |rest| ensures !Meet(first, rest[i]) {
        assert !Meet(ranges[0], ranges[i + 1]);
      }
      forall i, j | 0 <= i < j < |rest| ensures !Meet(rest[i], rest[j]) {
        assert !Meet(ranges[i + 1], ranges[j + 1]);
      }
    }
  }

  lemma {:induction false} AddAllIff(v: Validation, ranges: seq<Interval>)
    requires Ordered(v.unitIdSet) && (forall i :: 0 <= i < |ranges| ==> WellFormed(ranges[i]))
    ensures var r := AddAll(v, ranges);
            && (r.Some? <==> Disjoint(ranges) && Apart(v.unitIdSet, ranges))
            && (r.Some? ==> Ordered(r.value.unitIdSet) && r.value.hasDefault == v.hasDefault)
            && (r.Some? ==> forall y :: y in r.value.unitIdSet <==> y in v.unitIdSet || y in ranges)
    decreases |ranges|
  {
    if ranges != [] {
      var first, rest := ranges[0], ranges[1..];
      assert ranges == [first] + rest;
      OneMoreRange(first, rest);
      InsertIff(v.unitIdSet, first);
      var r := Add(v, first);
      if r.Some? {
        AddAllIff(r.value, rest);
        assert Apart(r.value.unitIdSet, rest) <==> Apart(v.unitIdSet, rest) && Apart([first], rest);
      }
    }
  }

  /** All ranges, within a client and across clients, are pairwise disjoint, and at most one client has none. */
  ghost predicate Acceptable(clients: seq<seq<Interval>>) {
    && (forall c :: 0 <= c < |clients| ==> Disjoint(clients[c]))
    && (forall c, d :: 0 <= c < d < |clients| ==> Apart(clients[c], clients[d]))
    && (forall c, d :: 0 <= c < d < |clients| ==> clients[c] != [] || clients[d] != [])
  }

  lemma OneMoreClient(front: seq<seq<Interval>>, last: seq<Interval>)
    ensures Acceptable(front + [last]) <==>
            && Acceptable(front)
            && Disjoint(last)
            && (forall c :: 0 <= c < |front| ==> Apart(front[c], last))
            && (last == [] ==> [] !in front)
  {
    var clients := front + [last];
    assert clients[..|front|] == front && clients[|front|] == last;
    if Acceptable(clients) {
      forall c | 0 <= c < |front| ensures Apart(front[c], last) && Disjoint(front[c]) {
        assert Apart(clients[c], clients[|front|]) && Disjoint(clients[c]);
        assert clients[c] != [] || clients[|front|] != [];
      }
      forall c, d | 0 <= c < d < |front| ensures Apart(front[c], front[d]) && (front[c] != [] || front[d] != []) {
        assert Apart(clients[c], clients[d]) && (clients[c] != [] || clients[d] != []);
      }
    }
  }

  ghost predicate Holds(clients: seq<seq<Interval>>, y: Interval) {
    exists c :: 0 <= c < |clients| && y in clients[c]
  }

  lemma ApartFromAll(s: seq<Interval>, clients: seq<seq<Interval>>, x: seq<Interval>)
    requires forall y :: y in s <==> Holds(clients, y)
    ensures Apart(s, x) <==> forall c :: 0 <= c < |clients| ==> Apart(clients[c], x)
  {
    if Apart(s, x) {
      forall c, y, z | 0 <= c < |clients| && y in clients[c] && z in x ensures !Meet(y, z) {
        assert Holds(clients, y);
      }
    }
  }

  lemma HoldsOneMore(front: seq<seq<Interval>>, last: seq<Interval>, y: Interval)
    ensures Holds(front + [last], y) <==> Holds(front, y) || y in last
  {
    var clients := front + [last];
    assert clients[|front|] == last;
    if c :| 0 <= c < |front| && y in front[c] {
      assert y in clients[c];
    }
  }

  /** The validator accepts exactly the acceptable configurations, and then holds all their ranges. */
  lemma {:induction false} ValidateIff(clients: seq<seq<Interval>>)
    requires forall c, i :: 0 <= c < |clients| && 0 <= i < |clients[c]| ==> WellFormed(clients[c][i])
    ensures var r := Validate(clients);
            && (r.Some? <==> Acceptable(clients))
            && (r.Some? ==> Ordered(r.value.unitIdSet) && (r.value.hasDefault <==> [] in clients))
            && (r.Some? ==> forall y :: y in r.value.unitIdSet <==> Holds(clients, y))
  {
    if clients != [] {
      var front, last := clients[..|clients| - 1], clients[|clients| - 1];
      ValidateIff(front);
      assert clients == front + [last];
      OneMoreClient(front, last);
      var r := Validate(front);
      if r.Some? {
        ApartFromAll(r.value.unitIdSet, front, last);
        if last != [] {
          AddAllIff(r.value, last);
        }
        forall y ensures Holds(clients, y) <==> Holds(front, y) || y in last {
          HoldsOneMore(front, last, y);
        }
      }
    }
  }

  // ---------- coverage ----------

  function Between(begin: int, end: int): (units: set<int>)
    ensures forall u :: u in units <==> begin <= u <= end
    ensures |units| == if begin <= end then end - begin + 1 else 0
    decreases if begin <= end then end - begin + 1 else 0
  {
    if begin <= end then Between(begin, end - 1) + {end} else {}
  }

  function Units(r: Interval): set<int> {
    Between(r.begin, r.end)
  }

  /** All the unit ids there are. */
  function AllUnits(): set<int> {
    set u: int | 0 <= u < 0x100 && Contains(Interval(UNIT_ID_MIN, UNIT_ID_MAX), u)
  }

  lemma UnitsOfAll(all: Interval)
    requires all == Interval(UNIT_ID_MIN, UNIT_ID_MAX)
    ensures AllUnits() == Units(all) && |AllUnits()| == 247
  {
  }

  function Covered(s: seq<Interval>): set<int> {
    if s == [] then {} else Covered(s[..|s| - 1]) + Units(s[|s| - 1])
  }

  /** The ranges of more than one unit id. */
  function LongRanges(s: seq<Interval>): nat {
    if s == [] then 0
    else LongRanges(s[..|s| - 1]) + (if s[|s| - 1].begin < s[|s| - 1].end then 1 else 0)
  }

  lemma {:induction false} CoveredIff(s: seq<Interval>, u: int)
    ensures u in Covered(s) <==> exists i :: 0 <= i < |s| && Contains(s[i], u)
  {
    if s != [] {
      CoveredIff(s[..|s| - 1], u);
      if i :| 0 <= i < |s| && Contains(s[i], u) {
        assert i < |s| - 1 ==> s[..|s| - 1][i] == s[i];
      }
    }
  }

  function InsertAt(s: seq<Interval>, i: nat, x: Interval): seq<Interval>
    requires i <= |s|
  {
    s[..i] + [x] + s[i..]
  }

  lemma InsertAtLast(s: seq<Interval>, i: nat, x: Interval)
    requires i < |s|
    ensures var t, last := InsertAt(s, i, x), |s| - 1;
            |t| == |s| + 1 && t[|s|] == s[last] && t[..|s|] == InsertAt(s[..last], i, x)
  {
  }

  /** Covered and LongRanges do not depend on where a range is inserted. */
  lemma {:induction false} InsertedAt(s: seq<Interval>, i: nat, x: Interval)
    requires i <= |s|
    ensures Covered(InsertAt(s, i, x)) == Covered(s) + Units(x)
    ensures LongRanges(InsertAt(s, i, x)) == LongRanges(s) + (if x.begin < x.end then 1 else 0)
  {
    if i == |s| {
      assert InsertAt(s, i, x)[..|s|] == s;
    } else {
      var front, last := s[..|s| - 1], s[|s| - 1];
      InsertAtLast(s, i, x);
      InsertedAt(front, i, x);
      SwapUnion(Covered(front), Units(x), Units(last));
    }
  }

  lemma SwapUnion(a: set<int>, b: set<int>, c: set<int>)
    ensures a + b + c == a + c + b
  {
  }

  /** What a validator holds of the counter: it lags behind the number of covered unit ids by one for each long range, and
      never wraps around. */
  ghost predicate Counted(v: Validation) {
    Ordered(v.unitIdSet) && v.counter == |Covered(v.unitIdSet)| - LongRanges(v.unitIdSet)
  }

  lemma InBounds(s: seq<Interval>)
    requires Ordered(s)
    ensures Covered(s) <= AllUnits() && |Covered(s)| <= |AllUnits()| == 247
  {
    forall u | u in Covered(s) ensures u in AllUnits() {
      CoveredIff(s, u);
    }
    UnitsOfAll(Interval(UNIT_ID_MIN, UNIT_ID_MAX));
    SubsetSize(Covered(s), AllUnits());
  }

  lemma SubsetSize(a: set<int>, b: set<int>)
    requires a <= b
    ensures |a| <= |b| && |b - a| == |b| - |a|
  {
    assert b == a + (b - a);
  }

  /** A range that meets no other covers new unit ids only. */
  lemma CoversNew(s: seq<Interval>, x: Interval)
    requires forall i :: 0 <= i < |s| ==> !Meet(s[i], x)
    ensures Covered(s) !! Units(x)
  {
    forall u | u in Covered(s) ensures u !in Units(x) {
      CoveredIff(s, u);
      var k :| 0 <= k < |s| && Contains(s[k], u);
      assert !Meet(s[k], x);
    }
  }

  lemma DisjointSize(a: set<int>, b: set<int>, c: set<int>)
    requires a !! b && c == a + b
    ensures |c| == |a| + |b|
  {
  }

  lemma InsertCovers(s: seq<Interval>, x: Interval)
    requires Ordered(s) && WellFormed(x) && Insert(s, x).Some?
    ensures var t := Insert(s, x).value;
            && Ordered(t)
            && |Covered(t)| == |Covered(s)| + (x.end - x.begin + 1)
            && LongRanges(t) == LongRanges(s) + (if x.begin < x.end then 1 else 0)
  {
    InsertIff(s, x);
    assert Insert(s, x).value == InsertAt(s, LowerBound(s, x), x);
    InsertedAt(s, LowerBound(s, x), x);
    CoversNew(s, x);
    DisjointSize(Covered(s), Units(x), Covered(Insert(s, x).value));
  }

  lemma AddCounts(v: Validation, x: Interval)
    requires Counted(v) && WellFormed(x) && Add(v, x).Some?
    ensures Counted(Add(v, x).value)
  {
    InsertCovers(v.unitIdSet, x);
    var w := Add(v, x).value;
    CounterFits(v.counter, x, w.unitIdSet, w.counter);
  }

  /** The eight bits of the counter are enough. */
  lemma CounterFits(before: Byte, x: Interval, s: seq<Interval>, after: Byte)
    requires WellFormed(x) && Ordered(s)
    requires after == Plus(before, if x.begin == x.end then 1 else x.end - x.begin)
    requires before + (x.end - x.begin + 1) - (if x.begin < x.end then 1 else 0) == |Covered(s)| - LongRanges(s)
    ensures after == |Covered(s)| - LongRanges(s)
  {
    InBounds(s);
  }

  lemma {:induction false} AddAllCounts(v: Validation, ranges: seq<Interval>)
    requires Counted(v) && (forall i :: 0 <= i < |ranges| ==> WellFormed(ranges[i]))
    requires AddAll(v, ranges).Some?
    ensures Counted(AddAll(v, ranges).value)
    decreases |ranges|
  {
    if ranges != [] {
      AddCounts(v, ranges[0]);
      AddAllCounts(Add(v, ranges[0]).value, ranges[1..]);
    }
  }

  lemma {:induction false} ValidatedIsCounted(clients: seq<seq<Interval>>)
    requires forall c, i :: 0 <= c < |clients| && 0 <= i < |clients[c]| ==> WellFormed(clients[c][i])
    requires Validate(clients).Some?
    ensures Counted(Validate(clients).value)
  {
    if clients != [] {
      ValidatedIsCounted(clients[..|clients| - 1]);
      var v, last := Validate(clients[..|clients| - 1]).value, clients[|clients| - 1];
      if last != [] {
        AddAllCounts(v, last);
      }
    }
  }

  /** Uncovered unit ids and ranges of more than one unit id are together at most one. */
  predicate FewGaps(s: seq<Interval>) {
    |AllUnits() - Covered(s)| + LongRanges(s) <= 1
  }

  lemma CoverageOkIff(v: Validation)
    ensures Counted(v) ==> (CoverageOk(v) <==> v.hasDefault || FewGaps(v.unitIdSet))
  {
    if Counted(v) {
      InBounds(v.unitIdSet);
      SubsetSize(Covered(v.unitIdSet), AllUnits());
    }
  }

  // ---------- a whole configuration ----------

  /** All ranges of a configuration. */
  function Flat(clients: seq<seq<Interval>>): seq<Interval> {
    if clients == [] then [] else Flat(clients[..|clients| - 1]) + clients[|clients| - 1]
  }

  lemma {:induction false} FlatHolds(clients: seq<seq<Interval>>, y: Interval)
    ensures y in Flat(clients) <==> Holds(clients, y)
  {
    if clients != [] {
      var front, last := clients[..|clients| - 1], clients[|clients| - 1];
      FlatHolds(front, y);
      HoldsOneMore(front, last, y);
      assert clients == front + [last];
    }
  }

  lemma SameMembersCover(a: seq<Interval>, b: seq<Interval>)
    requires forall y :: y in a <==> y in b
    ensures Covered(a) == Covered(b)
  {
    var c, d := Covered(a), Covered(b);
    forall u ensures u in c <==> u in d {
      SameMembersContain(a, b, u);
    }
  }

  lemma SameMembersContain(a: seq<Interval>, b: seq<Interval>, u: int)
    requires forall y :: y in a <==> y in b
    ensures u in Covered(a) <==> u in Covered(b)
  {
    CoveredIff(a, u);
    CoveredIff(b, u);
    if i :| 0 <= i < |a| && Contains(a[i], u) {
      assert a[i] in b;
    }
    if i :| 0 <= i < |b| && Contains(b[i], u) {
      assert b[i] in a;
    }
  }

  lemma LongInserted(s: seq<Interval>, i: nat, x: Interval)
    requires i <= |s|
    ensures LongRanges(InsertAt(s, i, x)) == LongRanges(s) + (if x.begin < x.end then 1 else 0)
  {
    InsertedAt(s, i, x);
  }

  lemma {:induction false} AddAllLong(v: Validation, ranges: seq<Interval>)
    requires AddAll(v, ranges).Some?
    ensures LongRanges(AddAll(v, ranges).value.unitIdSet) == LongRanges(v.unitIdSet) + LongRanges(ranges)
    decreases |ranges|
  {
    if ranges != [] {
      var x, rest, s := ranges[0], ranges[1..], v.unitIdSet;
      LongInserted(s, LowerBound(s, x), x);
      LongInserted(rest, 0, x);
      assert Insert(s, x).value == InsertAt(s, LowerBound(s, x), x);
      assert ranges == InsertAt(rest, 0, x);
      AddAllLong(Add(v, x).value, rest);
    }
  }

  lemma {:induction false} LongConcat(a: seq<Interval>, b: seq<Interval>)
    ensures LongRanges(a + b) == LongRanges(a) + LongRanges(b)
  {
    if b == [] {
      assert a + b == a;
    } else {
      assert (a + b)[..|a + b| - 1] == a + b[..|b| - 1];
      LongConcat(a, b[..|b| - 1]);
    }
  }

  lemma {:induction false} ValidateLong(clients: seq<seq<Interval>>)
    requires Validate(clients).Some?
    ensures LongRanges(Validate(clients).value.unitIdSet) == LongRanges(Flat(clients))
  {
    if clients != [] {
      var front, last := clients[..|clients| - 1], clients[|clients| - 1];
      ValidateLong(front);
      LongConcat(Flat(front), last);
      if last != [] {
        AddAllLong(Validate(front).value, last);
      }
    }
  }

  /** The set and the configuration have the same gaps. */
  lemma ValidateGaps(clients: seq<seq<Interval>>)
    requires forall c, i :: 0 <= c < |clients| && 0 <= i < |clients[c]| ==> WellFormed(clients[c][i])
    requires Validate(clients).Some?
    ensures FewGaps(Validate(clients).value.unitIdSet) <==> FewGaps(Flat(clients))
  {
    var s, flat := Validate(clients).value.unitIdSet, Flat(clients);
    ValidateIff(clients);
    forall y ensures y in s <==> y in flat {
      FlatHolds(clients, y);
    }
    SameMembersCover(s, flat);
    ValidateLong(clients);
  }

  /** ValidateClients, as far as it looks at unit ids. */
  predicate Passes(clients: seq<seq<Interval>>) {
    Validate(clients).Some? && CoverageOk(Validate(clients).value)
  }

  /** A configuration passes if and only if all its ranges are pairwise disjoint, at most one client has none, and, unless one
      has none, the unit ids no range contains and the ranges of more than one unit id are together at most one. So what
      passes without a default leaves at most one unit id uncovered, and full coverage passes only with at most one long
      range. */
  lemma PassesIff(clients: seq<seq<Interval>>)
    requires forall c, i :: 0 <= c < |clients| && 0 <= i < |clients[c]| ==> WellFormed(clients[c][i])
    ensures Passes(clients) <==> Acceptable(clients) && ([] in clients || FewGaps(Flat(clients)))
  {
    ValidateIff(clients);
    if Validate(clients).Some? {
      ValidatedIsCounted(clients);
      ValidateGaps(clients);
      CoverageOkIff(Validate(clients).value);
    }
  }

  method ValidateClients(clients: seq<seq<Interval>>) returns (ok: bool)
    requires forall c, i :: 0 <= c < |clients| && 0 <= i < |clients[c]| ==> WellFormed(clients[c][i])
    ensures ok <==> Acceptable(clients) && ([] in clients || FewGaps(Flat(clients)))
  {
    PassesIff(clients);
    var unitIdRangeValidator := new UnitIdRangeValidator();
    for index := 0 to |clients|
      invariant Validate(clients[..index]) == Some(unitIdRangeValidator.View())
    {
      assert clients[..index + 1][..index] == clients[..index];
      var inserted := unitIdRangeValidator.InsertClient(clients[index]);
      if !inserted {
        ValidateFails(clients, index + 1);
        return false;
      }
    }
    assert clients[..|clients|] == clients;
    ValidatedIsCounted(clients);
    CoverageOkIff(unitIdRangeValidator.View());
    return unitIdRangeValidator.CheckCoverage();
  }

  lemma {:induction false} ValidateFails(clients: seq<seq<Interval>>, n: nat)
    requires n <= |clients| && Validate(clients[..n]).None?
    ensures Validate(clients).None?
    decreases |clients| - n
  {
    if n == |clients| {
      assert clients[..n] == clients;
    } else {
      assert clients[..n + 1][..n] == clients[..n];
      ValidateFails(clients, n + 1);
    }
  }

  // ---------- the threshold ----------

  /** Full coverage, which is what the check is meant to ask for, is refused when two long ranges provide it. */
  lemma FullCoverageRefused(a: Interval, b: Interval)
    requires a.begin == UNIT_ID_MIN < a.end && a.end + 1 == b.begin < b.end == UNIT_ID_MAX
    ensures Acceptable([[a], [b]]) && Covered(Flat([[a], [b]])) == AllUnits() && !Passes([[a], [b]])
  {
    var clients := [[a], [b]];
    FlatOfTwo(clients);
    assert Flat(clients) == [a, b];
    TwoRangesCover(a, b, Covered([a, b]));
    TwoLong([a, b]);
    assert !FewGaps(Flat(clients));
    assert clients[0] != [] && clients[1] != [];
    PassesIff(clients);
  }

  lemma FlatOfTwo(clients: seq<seq<Interval>>)
    requires |clients| == 2
    ensures Flat(clients) == clients[0] + clients[1]
  {
    assert clients[..1][..0] == [];
    assert Flat(clients[..1]) == [] + clients[0];
  }

  lemma TwoLong(s: seq<Interval>)
    requires |s| == 2 && s[0].begin < s[0].end && s[1].begin < s[1].end
    ensures LongRanges(s) == 2
  {
    assert s[..1][0] == s[0] && s[..1][..0] == [];
    assert LongRanges(s[..1]) == 1;
  }

  lemma TwoCovered(a: Interval, b: Interval, u: int)
    requires a.begin == UNIT_ID_MIN <= a.end && a.end + 1 == b.begin <= b.end == UNIT_ID_MAX
    ensures u in Covered([a, b]) <==> u in AllUnits()
  {
    var s := [a, b];
    CoveredIff(s, u);
    if u in AllUnits() {
      assert Contains(if u <= a.end then s[0] else s[1], u);
    }
  }

  lemma TwoRangesCover(a: Interval, b: Interval, units: set<int>)
    requires a.begin == UNIT_ID_MIN <= a.end && a.end + 1 == b.begin <= b.end == UNIT_ID_MAX
    requires units == Covered([a, b])
    ensures units == AllUnits()
  {
    forall u: int ensures u in units <==> u in AllUnits() {
      TwoCovered(a, b, u);
    }
  }

  /** The unit ids 1 to n, one range each. */
  function Singles(n: Byte): seq<Interval> {
    if n == 0 then [] else Singles(n - 1) + [Interval(n, n)]
  }

  lemma {:induction false} SinglesAre(n: Byte)
    ensures |Singles(n)| == n && LongRanges(Singles(n)) == 0
    ensures forall i :: 0 <= i < n ==> Singles(n)[i] == Interval(i + 1, i + 1)
  {
    if n > 0 {
      SinglesAre(n - 1);
      assert Singles(n)[..n - 1] == Singles(n - 1);
    }
  }

  lemma SinglesCover(n: Byte, units: set<int>)
    requires units == Covered(Singles(n))
    ensures units == Between(1, n)
  {
    SinglesAre(n);
    forall u ensures u in units <==> 1 <= u <= n {
      CoveredIff(Singles(n), u);
      if 1 <= u <= n {
        assert Contains(Singles(n)[u - 1], u);
      }
    }
  }

  lemma UncoveredBySingles(n: Byte)
    requires n <= UNIT_ID_MAX
    ensures |AllUnits() - Covered(Singles(n))| == UNIT_ID_MAX - n
    ensures FewGaps(Singles(n)) <==> n >= UNIT_ID_MAX - 1
  {
    SinglesAre(n);
    SinglesCover(n, Covered(Singles(n)));
    UnitsOfAll(Interval(UNIT_ID_MIN, UNIT_ID_MAX));
    SubsetSize(Between(1, n), AllUnits());
  }

  lemma FlatOfOne(s: seq<Interval>)
    ensures Flat([s]) == s
  {
    assert [s][..0] == [];
    assert Flat([s]) == [] + s;
  }

  /** A configuration of one client. */
  lemma PassesAlone(s: seq<Interval>)
    requires s != [] && Disjoint(s) && forall i :: 0 <= i < |s| ==> WellFormed(s[i])
    ensures Passes([s]) <==> FewGaps(s)
  {
    FlatOfOne(s);
    assert [s][0] != [];
    PassesIff([s]);
  }

  /** Partial coverage passes: of the configurations with one client and the ranges 1, 2, ..., n, those pass that leave at most
      one unit id uncovered. */
  lemma OneUncoveredPasses(n: Byte)
    requires 1 <= n <= UNIT_ID_MAX
    ensures Passes([Singles(n)]) <==> n >= UNIT_ID_MAX - 1
    ensures |AllUnits() - Covered(Singles(n))| == UNIT_ID_MAX - n
  {
    SinglesAre(n);
    UncoveredBySingles(n);
    PassesAlone(Singles(n));
  }
}

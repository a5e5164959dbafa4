/** The routing table (include/router.h:65-111, src/router.cpp:143-238). */
module Routing {
  import opened Tables

  // ----- the order of std::string -----

  /** Lexicographic, a proper prefix first. */
  predicate StringLe(a: string, b: string) {
    a == "" || (b != "" && (a[0] < b[0] || (a[0] == b[0] && StringLe(a[1..], b[1..]))))
  }

  lemma {:induction false} StringLeTotal(a: string, b: string)
    ensures StringLe(a, b) || StringLe(b, a)
    ensures StringLe(a, b) && StringLe(b, a) ==> a == b
  {
    if a != "" && b != "" && a[0] == b[0] {
      StringLeTotal(a[1..], b[1..]);
      assert a == [a[0]] + a[1..] && b == [b[0]] + b[1..];
    }
  }

  lemma {:induction false} StringLeTransitive(a: string, b: string, c: string)
    requires StringLe(a, b) && StringLe(b, c)
    ensures StringLe(a, c)
  {
    if a != "" && a[0] == b[0] && b[0] == c[0] {
      StringLeTransitive(a[1..], b[1..], c[1..]);
    }
  }

  ghost predicate Differ(a: string, b: string, i: nat) {
    i < |a| && i < |b| && a[..i] == b[..i] && a[i] < b[i]
  }

  lemma DifferLater(a: string, b: string, i: nat)
    requires a != "" && b != "" && a[0] == b[0]
    ensures Differ(a[1..], b[1..], i) <==> Differ(a, b, i + 1)
    ensures !Differ(a, b, 0)
  {
    if i < |a| - 1 && i < |b| - 1 {
      assert a[..i + 1] == [a[0]] + a[1..][..i] && b[..i + 1] == [b[0]] + b[1..][..i];
      assert a[..i + 1][1..] == a[1..][..i] && b[..i + 1][1..] == b[1..][..i];
    }
  }

  lemma DifferFirst(a: string, b: string, i: nat)
    requires a != "" && b != "" && a[0] != b[0]
    ensures Differ(a, b, i) ==> i == 0
    ensures Differ(a, b, 0) <==> a[0] < b[0]
    ensures !(a <= b)
  {
    if 0 < i < |a| && i < |b| {
      assert a[..i][0] == a[0] && b[..i][0] == b[0];
    }
    assert a[..0] == b[..0];
  }

  /** One text is a prefix of the other, or the first characters that differ decide. */
  lemma {:induction false} StringLeMeaning(a: string, b: string)
    ensures StringLe(a, b) <==> a <= b || exists i :: Differ(a, b, i)
  {
    if a != "" && b != "" {
      if a[0] == b[0] {
        StringLeMeaning(a[1..], b[1..]);
        assert a == [a[0]] + a[1..] && b == [b[0]] + b[1..];
        forall i: nat ensures Differ(a[1..], b[1..], i) <==> Differ(a, b, i + 1) {
          DifferLater(a, b, i);
        }
        DifferLater(a, b, 0);
        if i: nat :| Differ(a, b, i) {
          assert Differ(a[1..], b[1..], i - 1);
        }
      } else {
        forall i ensures Differ(a, b, i) <==> i == 0 && a[0] < b[0] {
          DifferFirst(a, b, i);
        }
        DifferFirst(a, b, 0);
      }
    }
  }

  // ----- one destination's gateways -----

  datatype Entry = Entry(weight: nat, gateway: string)

  /** A multi_index_container: the same entries in two ordered, non-unique indexes. */
  datatype Gateways = Gateways(byWeight: seq<Entry>, byName: seq<Entry>)

  /** What a look-up answers: NULL, a value, or whatever lies past the end of an empty index. */
  datatype Answer<T> = Null | Undefined | Found(value: T)

  ghost predicate SortedByWeight(s: seq<Entry>) {
    forall i, j | 0 <= i < j < |s| :: s[i].weight <= s[j].weight
  }

  ghost predicate SortedByName(s: seq<Entry>) {
    forall i, j | 0 <= i < j < |s| :: StringLe(s[i].gateway, s[j].gateway)
  }

  ghost predicate Agree(g: Gateways) {
    && SortedByWeight(g.byWeight)
    && SortedByName(g.byName)
    && multiset(g.byWeight) == multiset(g.byName)
  }

  /** First position whose weight exceeds w: a non-unique index inserts after its equals. */
  function UpperByWeight(s: seq<Entry>, w: nat): (i: nat)
    ensures i <= |s|
    ensures forall k | 0 <= k < i :: s[k].weight <= w
    ensures i < |s| ==> s[i].weight > w
  {
    if s == [] || s[0].weight > w then 0 else 1 + UpperByWeight(s[1..], w)
  }

  function UpperByName(s: seq<Entry>, n: string): (i: nat)
    ensures i <= |s|
    ensures forall k | 0 <= k < i :: StringLe(s[k].gateway, n)
    ensures i < |s| ==> !StringLe(s[i].gateway, n)
  {
    if s == [] || !StringLe(s[0].gateway, n) then 0 else 1 + UpperByName(s[1..], n)
  }

  /** First position whose name is not below n. */
  function LowerByName(s: seq<Entry>, n: string): (i: nat)
    ensures i <= |s|
    ensures forall k | 0 <= k < i :: !StringLe(n, s[k].gateway)
    ensures i < |s| ==> StringLe(n, s[i].gateway)
  {
    if s == [] || StringLe(n, s[0].gateway) then 0 else 1 + LowerByName(s[1..], n)
  }

  function InsertAt(s: seq<Entry>, i: nat, e: Entry): seq<Entry>
    requires i <= |s|
  {
    s[..i] + [e] + s[i..]
  }

  function Insert(g: Gateways, e: Entry): Gateways {
    Gateways(InsertAt(g.byWeight, UpperByWeight(g.byWeight, e.weight), e),
             InsertAt(g.byName, UpperByName(g.byName, e.gateway), e))
  }

  function Without(s: seq<Entry>, n: string): seq<Entry> {
    if s == [] then [] else (if s[0].gateway == n then [] else [s[0]]) + Without(s[1..], n)
  }

  /** Erasing a key of the name index drops its equal range there, and those entries' places in
      the weight index. */
  function Erase(g: Gateways, n: string): Gateways {
    var lo, hi := LowerByName(g.byName, n), UpperByName(g.byName, n);
    Gateways(Without(g.byWeight, n), if lo <= hi then g.byName[..lo] + g.byName[hi..] else g.byName)
  }

  lemma InsertMultiset(s: seq<Entry>, i: nat, e: Entry)
    requires i <= |s|
    ensures multiset(InsertAt(s, i, e)) == multiset(s) + multiset{e}
  {
    assert s == s[..i] + s[i..];
  }

  lemma InsertKeepsWeightOrder(s: seq<Entry>, e: Entry)
    requires SortedByWeight(s)
    ensures SortedByWeight(InsertAt(s, UpperByWeight(s, e.weight), e))
  {
  }

  lemma InsertKeepsNameOrder(s: seq<Entry>, e: Entry)
    requires SortedByName(s)
    ensures SortedByName(InsertAt(s, UpperByName(s, e.gateway), e))
  {
    var i := UpperByName(s, e.gateway);
    forall k | i <= k < |s| ensures StringLe(e.gateway, s[k].gateway) {
      StringLeTotal(e.gateway, s[i].gateway);
      if k > i {
        StringLeTransitive(e.gateway, s[i].gateway, s[k].gateway);
      }
    }
  }

  lemma InsertAgrees(g: Gateways, e: Entry)
    requires Agree(g)
    ensures Agree(Insert(g, e))
    ensures multiset(Insert(g, e).byWeight) == multiset(g.byWeight) + multiset{e}
  {
    InsertKeepsWeightOrder(g.byWeight, e);
    InsertKeepsNameOrder(g.byName, e);
    InsertMultiset(g.byWeight, UpperByWeight(g.byWeight, e.weight), e);
    InsertMultiset(g.byName, UpperByName(g.byName, e.gateway), e);
  }

  /** The entries of m that do not go through n. */
  ghost predicate Others(m: multiset<Entry>, n: string, rest: multiset<Entry>) {
    forall e :: rest[e] == if e.gateway == n then 0 else m[e]
  }

  lemma {:induction false} WithoutMultiset(s: seq<Entry>, n: string)
    ensures Others(multiset(s), n, multiset(Without(s, n)))
  {
    if s != [] {
      WithoutMultiset(s[1..], n);
      assert s == [s[0]] + s[1..];
      assert multiset(s) == multiset{s[0]} + multiset(s[1..]);
    }
  }

  lemma {:induction false} WithoutMembers(s: seq<Entry>, n: string, e: Entry)
    ensures e in Without(s, n) <==> e in s && e.gateway != n
  {
    if s != [] {
      WithoutMembers(s[1..], n, e);
      assert s == [s[0]] + s[1..];
    }
  }

  lemma {:induction false} WithoutKeepsWeightOrder(s: seq<Entry>, n: string)
    requires SortedByWeight(s)
    ensures SortedByWeight(Without(s, n))
  {
    if s != [] {
      WithoutKeepsWeightOrder(s[1..], n);
      var rest := Without(s[1..], n);
      forall k | 0 <= k < |rest| ensures s[0].weight <= rest[k].weight {
        WithoutMembers(s[1..], n, rest[k]);
        var i :| 0 <= i < |s[1..]| && s[1..][i] == rest[k];
        assert s[i + 1] == rest[k];
      }
    }
  }

  /** In a name-ordered index the equal range of n is exactly the entries through n. */
  lemma EqualRange(s: seq<Entry>, n: string)
    requires SortedByName(s)
    ensures LowerByName(s, n) <= UpperByName(s, n)
    ensures forall k | 0 <= k < |s| :: s[k].gateway == n <==> LowerByName(s, n) <= k < UpperByName(s, n)
  {
    var lo, hi := LowerByName(s, n), UpperByName(s, n);
    forall k | 0 <= k < |s| ensures StringLe(n, s[k].gateway) <==> lo <= k {
      if lo < k {
        StringLeTransitive(n, s[lo].gateway, s[k].gateway);
      }
    }
    forall k | 0 <= k < |s| ensures StringLe(s[k].gateway, n) <==> k < hi {
      if hi < k && StringLe(s[k].gateway, n) {
        StringLeTransitive(s[hi].gateway, s[k].gateway, n);
      }
    }
    forall k | 0 <= k < |s| {
      StringLeTotal(s[k].gateway, n);
    }
  }

  lemma {:induction false} WithoutSplit(a: seq<Entry>, b: seq<Entry>, n: string)
    ensures Without(a + b, n) == Without(a, n) + Without(b, n)
  {
    if a == [] {
      assert a + b == b;
    } else {
      assert (a + b)[1..] == a[1..] + b;
      WithoutSplit(a[1..], b, n);
    }
  }

  lemma {:induction false} WithoutNone(s: seq<Entry>, n: string)
    ensures (forall k | 0 <= k < |s| :: s[k].gateway != n) ==> Without(s, n) == s
    ensures (forall k | 0 <= k < |s| :: s[k].gateway == n) ==> Without(s, n) == []
  {
    if s != [] {
      WithoutNone(s[1..], n);
    }
  }

  /** Dropping the equal range of the name index drops exactly the entries through n. */
  lemma EraseRange(s: seq<Entry>, n: string)
    requires SortedByName(s)
    ensures LowerByName(s, n) <= UpperByName(s, n)
    ensures s[..LowerByName(s, n)] + s[UpperByName(s, n)..] == Without(s, n)
  {
    var lo, hi := LowerByName(s, n), UpperByName(s, n);
    EqualRange(s, n);
    WithoutRange(s, lo, hi, n);
  }

  lemma WithoutRange(s: seq<Entry>, lo: nat, hi: nat, n: string)
    requires lo <= hi <= |s| && forall k | 0 <= k < |s| :: s[k].gateway == n <==> lo <= k < hi
    ensures s[..lo] + s[hi..] == Without(s, n)
  {
    assert s == s[..lo] + s[lo..hi] + s[hi..];
    WithoutMiddle(s[..lo], s[lo..hi], s[hi..], n);
  }

  lemma WithoutMiddle(a: seq<Entry>, m: seq<Entry>, b: seq<Entry>, n: string)
    requires forall k | 0 <= k < |a| :: a[k].gateway != n
    requires forall k | 0 <= k < |m| :: m[k].gateway == n
    requires forall k | 0 <= k < |b| :: b[k].gateway != n
    ensures Without(a + m + b, n) == a + b
  {
    WithoutThree(a, m, b, n);
    WithoutNone(a, n);
    WithoutNone(m, n);
    WithoutNone(b, n);
    var x, y, z := Without(a, n), Without(m, n), Without(b, n);
    assert x == a && y == [] && z == b && a + [] == a;
  }

  lemma WithoutThree(a: seq<Entry>, m: seq<Entry>, b: seq<Entry>, n: string)
    ensures Without(a + m + b, n) == Without(a, n) + Without(m, n) + Without(b, n)
  {
    WithoutSplit(a + m, b, n);
    WithoutSplit(a, m, n);
  }

  lemma EraseKeepsNameOrder(s: seq<Entry>, n: string)
    requires SortedByName(s)
    ensures SortedByName(Without(s, n))
  {
    EraseRange(s, n);
    var lo, hi := LowerByName(s, n), UpperByName(s, n);
    var r := s[..lo] + s[hi..];
    forall i, j | 0 <= i < j < |r| ensures StringLe(r[i].gateway, r[j].gateway) {
      assert r[i] == s[if i < lo then i else i - lo + hi];
      assert r[j] == s[if j < lo then j else j - lo + hi];
    }
  }

  lemma OthersUnique(m: multiset<Entry>, n: string, a: multiset<Entry>, b: multiset<Entry>)
    requires Others(m, n, a) && Others(m, n, b)
    ensures a == b
  {
  }

  lemma EraseParts(g: Gateways, n: string)
    requires SortedByName(g.byName)
    ensures Erase(g, n) == Gateways(Without(g.byWeight, n), Without(g.byName, n))
  {
    EraseRange(g.byName, n);
  }

  lemma WithoutBoth(a: seq<Entry>, b: seq<Entry>, n: string)
    requires multiset(a) == multiset(b)
    ensures Others(multiset(a), n, multiset(Without(a, n))) && multiset(Without(a, n)) == multiset(Without(b, n))
  {
    WithoutMultiset(a, n);
    WithoutMultiset(b, n);
    OthersUnique(multiset(a), n, multiset(Without(a, n)), multiset(Without(b, n)));
  }

  /** Erasing by gateway keeps both indexes ordered and in agreement and removes exactly the
      entries with that gateway from each. */
  lemma EraseAgrees(g: Gateways, n: string)
    requires Agree(g)
    ensures Agree(Erase(g, n))
    ensures Erase(g, n).byName == Without(g.byName, n)
    ensures Others(multiset(g.byWeight), n, multiset(Erase(g, n).byWeight))
  {
    EraseParts(g, n);
    EraseKeepsNameOrder(g.byName, n);
    WithoutKeepsWeightOrder(g.byWeight, n);
    WithoutBoth(g.byWeight, g.byName, n);
  }

  // ----- the plain log -----

  datatype Op =
    | Inserted(target: string, entry: Entry)
    | Deleted(destination: Option<string>, gateway: Option<string>)

  /** The entries for a destination that the log leaves, oldest first; None when it is no key. */
  function Live(log: seq<Op>, d: string): Option<seq<Entry>> {
    if log == [] then None
    else
      var before := Live(log[..|log| - 1], d);
      match log[|log| - 1]
      case Inserted(d', e) => if d' != d then before else Some(before.GetOr([]) + [e])
      case Deleted(Some(d'), None) => if d' == d then None else before
      case Deleted(od, Some(g)) =>
        if before.Some? && (od.None? || od.value == d) then Some(Without(before.value, g)) else before
      case Deleted(None, None) => before
  }

  /** Stable sorting by weight: the order in which equal weights were inserted is kept. */
  function StableSort(s: seq<Entry>): seq<Entry> {
    if s == [] then []
    else var t := StableSort(s[..|s| - 1]); InsertAt(t, UpperByWeight(t, s[|s| - 1].weight), s[|s| - 1])
  }

  lemma SortedInsert(t: seq<Entry>, e: Entry)
    requires SortedByWeight(t)
    ensures var r := InsertAt(t, UpperByWeight(t, e.weight), e);
            SortedByWeight(r) && multiset(r) == multiset(t) + multiset{e}
  {
    InsertKeepsWeightOrder(t, e);
    InsertMultiset(t, UpperByWeight(t, e.weight), e);
  }

  lemma {:induction false} StableSortSorts(s: seq<Entry>)
    ensures SortedByWeight(StableSort(s)) && multiset(StableSort(s)) == multiset(s)
  {
    if s != [] {
      var front, e := s[..|s| - 1], s[|s| - 1];
      StableSortSorts(front);
      SortedInsert(StableSort(front), e);
      StableSortSnoc(front, e);
      assert s == front + [e];
    }
  }

  lemma StableSortSnoc(s: seq<Entry>, e: Entry)
    ensures var t := StableSort(s); StableSort(s + [e]) == InsertAt(t, UpperByWeight(t, e.weight), e)
  {
  }

  /** Deleting before or after sorting is the same. */
  lemma {:induction false} SortWithout(s: seq<Entry>, n: string)
    ensures StableSort(Without(s, n)) == Without(StableSort(s), n)
  {
    if s != [] {
      var k := |s| - 1;
      var front, e := s[..k], s[k];
      assert s == front + [e];
      SortWithout(front, n);
      StableSortSorts(front);
      StableSortSnoc(front, e);
      InsertWithout(StableSort(front), e, n);
      WithoutSplit(front, [e], n);
      WithoutOne(e, n);
      StableSortSnoc(Without(front, n), e);
      assert Without(front, n) + [] == Without(front, n);
    }
  }

  lemma WithoutOne(e: Entry, n: string)
    ensures Without([e], n) == if e.gateway == n then [] else [e]
  {
  }

  lemma InsertWithout(t: seq<Entry>, e: Entry, n: string)
    requires SortedByWeight(t)
    ensures var r := Without(t, n);
            Without(InsertAt(t, UpperByWeight(t, e.weight), e), n)
            == if e.gateway == n then r else InsertAt(r, UpperByWeight(r, e.weight), e)
  {
    var i := UpperByWeight(t, e.weight);
    var ra, rb := Without(t[..i], n), Without(t[i..], n);
    WithoutAround(t, i, e, n);
    WithoutOne(e, n);
    UpperWithout(t[..i], t[i..], e.weight, n);
    InsertBetween(ra, rb, e);
  }

  lemma WithoutAround(t: seq<Entry>, i: nat, e: Entry, n: string)
    requires i <= |t|
    ensures Without(t, n) == Without(t[..i], n) + Without(t[i..], n)
    ensures Without(InsertAt(t, i, e), n) == Without(t[..i], n) + Without([e], n) + Without(t[i..], n)
  {
    assert t == t[..i] + t[i..];
    WithoutSplit(t[..i], t[i..], n);
    WithoutThree(t[..i], [e], t[i..], n);
  }

  lemma InsertBetween(a: seq<Entry>, b: seq<Entry>, e: Entry)
    ensures InsertAt(a + b, |a|, e) == a + [e] + b && a + [] + b == a + b
  {
  }

  lemma UpperWithout(a: seq<Entry>, b: seq<Entry>, w: nat, n: string)
    requires forall k | 0 <= k < |a| :: a[k].weight <= w
    requires forall k | 0 <= k < |b| :: b[k].weight > w
    ensures UpperByWeight(Without(a, n) + Without(b, n), w) == |Without(a, n)|
  {
    var ra, rb := Without(a, n), Without(b, n);
    forall k | 0 <= k < |ra| ensures ra[k].weight <= w { WithoutMembers(a, n, ra[k]); }
    forall k | 0 <= k < |rb| ensures rb[k].weight > w { WithoutMembers(b, n, rb[k]); }
    UpperSplit(ra, rb, w);
  }

  lemma {:induction false} UpperSplit(a: seq<Entry>, b: seq<Entry>, w: nat)
    requires forall k | 0 <= k < |a| :: a[k].weight <= w
    requires forall k | 0 <= k < |b| :: b[k].weight > w
    ensures UpperByWeight(a + b, w) == |a|
  {
    if a == [] {
      assert a + b == b;
    } else {
      assert (a + b)[1..] == a[1..] + b;
      UpperSplit(a[1..], b, w);
    }
  }

  // ----- the class -----

  class Router {
    var table: map<string, Gateways>
    ghost var log: seq<Op>

    /** The table agrees with the log: same keys, indexes in agreement, and each weight index is
        the stable sort of what the log leaves for the destination. */
    ghost predicate Valid()
      reads this
    {
      forall d :: Represents(table, log, d)
    }

    constructor ()
      ensures Valid() && log == [] && table == map[]
    {
      table, log := map[], [];
    }

    method InsertRoute(destination: string, gateway: string, weight: nat) returns (r: bool)
      requires Valid()
      modifies this
      ensures Valid() && r
      ensures log == old(log) + [Inserted(destination, Entry(weight, gateway))]
    {
      var e := Entry(weight, gateway);
      ghost var before := table;
      if destination in table {
        table := table[destination := Insert(table[destination], e)];
      } else {
        table := table[destination := Insert(Gateways([], []), e)];
      }
      log := log + [Inserted(destination, e)];
      forall d ensures Represents(table, log, d) {
        InsertRepresents(before, old(log), table, destination, e, d);
      }
      return true;
    }

    /** False exactly for an empty table, or for a missing destination when a gateway is given;
        a missing destination alone is not reported. */
    method DeleteRoute(destination: Option<string>, gateway: Option<string>) returns (r: bool)
      requires Valid()
      modifies this
      ensures Valid()
      ensures r <==> old(table) != map[] && (destination.Some? && gateway.Some? ==> destination.value in old(table))
      ensures log == if r then old(log) + [Deleted(destination, gateway)] else old(log)
      ensures !r ==> table == old(table)
      ensures destination.None? && gateway.None? ==> table == old(table)
      ensures r && destination.Some? && gateway.None? ==> table == old(table) - {destination.value}
      ensures r && gateway.Some? ==> table.Keys == old(table).Keys
      ensures r && gateway.Some? ==> forall d | d in table ::
                table[d] == if destination.None? || destination.value == d
                            then Erase(old(table)[d], gateway.value) else old(table)[d]
    {
      ghost var before := table;
      if table == map[] {
        return false;
      }
      if destination.Some? && gateway.None? {
        table := table - {destination.value};
      } else if destination.Some? && gateway.Some? {
        if destination.value !in table {
          return false;
        }
        table := table[destination.value := Erase(table[destination.value], gateway.value)];
      } else if gateway.Some? {
        var rest := table.Keys;
        while rest != {}
          invariant rest <= table.Keys == before.Keys && log == old(log)
          invariant forall d | d in before ::
                      table[d] == if d in rest then before[d] else Erase(before[d], gateway.value)
          decreases rest
        {
          var d :| d in rest;
          table := table[d := Erase(table[d], gateway.value)];
          rest := rest - {d};
        }
      }
      log := log + [Deleted(destination, gateway)];
      forall d ensures Represents(table, log, d) {
        DeleteRepresents(before, old(log), table, destination, gateway, d);
      }
      return true;
    }

    /** The oldest of the lightest live entries of the log; NULL exactly when the log has no such key,
        and nothing is defined exactly when all the key's gateways were deleted. */
    method GetRoute(destination: string) returns (r: Answer<Entry>)
      requires Valid()
      ensures r.Null? <==> Live(log, destination).None?
      ensures r.Undefined? <==> Live(log, destination) == Some([])
      ensures r.Found? ==> OldestLightest(Live(log, destination).value, r.value)
    {
      assert Represents(table, log, destination);
      if destination !in table {
        return Null;
      }
      EmptySort(Live(log, destination).value);
      if table[destination].byWeight == [] {
        return Undefined;
      }
      LeastFirst(Live(log, destination).value);
      return Found(table[destination].byWeight[0]);
    }

    /** The gateway of the entry get_route answers with. */
    method GetGateway(destination: string) returns (r: Answer<string>)
      requires Valid()
      ensures r.Null? <==> Live(log, destination).None?
      ensures r.Undefined? <==> Live(log, destination) == Some([])
      ensures r.Found? ==> exists e :: OldestLightest(Live(log, destination).value, e) && r.value == e.gateway
    {
      assert Represents(table, log, destination);
      if destination !in table {
        return Null;
      }
      EmptySort(Live(log, destination).value);
      if table[destination].byWeight == [] {
        return Undefined;
      }
      LeastFirst(Live(log, destination).value);
      return Found(table[destination].byWeight[0].gateway);
    }
  }

  ghost predicate Represents(table: map<string, Gateways>, log: seq<Op>, d: string) {
    && (d in table <==> Live(log, d).Some?)
    && (d in table ==> Agree(table[d]) && table[d].byWeight == StableSort(Live(log, d).value))
  }

  /** e is in s, nothing in s is lighter, and nothing before its place is as light. */
  ghost predicate OldestLightest(s: seq<Entry>, e: Entry) {
    exists i :: 0 <= i < |s| && s[i] == e
                && (forall k | 0 <= k < |s| :: e.weight <= s[k].weight)
                && (forall k | 0 <= k < i :: e.weight < s[k].weight)
  }

  lemma EmptySort(s: seq<Entry>)
    ensures StableSort(s) == [] <==> s == []
  {
    StableSortSorts(s);
    assert |multiset(s)| == |s| && |multiset(StableSort(s))| == |StableSort(s)|;
  }

  /** There is only one oldest lightest entry. */
  lemma OldestLightestUnique(s: seq<Entry>, e: Entry, f: Entry)
    requires OldestLightest(s, e) && OldestLightest(s, f)
    ensures e == f
  {
  }

  lemma {:induction false} LeastFirst(s: seq<Entry>)
    requires StableSort(s) != []
    ensures OldestLightest(s, StableSort(s)[0])
  {
    var n := |s| - 1;
    var front, t, e := s[..n], StableSort(s[..n]), s[n];
    assert s == front + [e];
    StableSortSnoc(front, e);
    if t == [] {
      StableSortSorts(front);
      assert |multiset(front)| == |front| && |multiset(t)| == |t|;
      assert s[0] == e;
    } else {
      LeastFirst(front);
      LeastOfMore(front, t[0], e);
      assert StableSort(s)[0] == if e.weight < t[0].weight then e else t[0];
    }
  }

  lemma LeastOfMore(front: seq<Entry>, least: Entry, e: Entry)
    requires OldestLightest(front, least)
    ensures OldestLightest(front + [e], if e.weight < least.weight then e else least)
  {
    var s, n := front + [e], |front|;
    var i :| 0 <= i < n && front[i] == least
             && (forall k | 0 <= k < n :: least.weight <= front[k].weight)
             && (forall k | 0 <= k < i :: least.weight < front[k].weight);
    var best := if e.weight < least.weight then e else least;
    var at := if e.weight < least.weight then n else i;
    assert forall k | 0 <= k < n :: s[k] == front[k];
    assert s[at] == best && forall k | 0 <= k < |s| :: best.weight <= s[k].weight;
  }

  lemma InsertRepresents(before: map<string, Gateways>, log: seq<Op>, after: map<string, Gateways>,
                         destination: string, e: Entry, d: string)
    requires Represents(before, log, d)
    requires after == before[destination :=
                        Insert(if destination in before then before[destination] else Gateways([], []), e)]
    ensures Represents(after, log + [Inserted(destination, e)], d)
  {
    var longer := log + [Inserted(destination, e)];
    assert longer[..|longer| - 1] == log;
    if d == destination {
      InsertedLive(log, d, e);
      var g := if d in before then before[d] else Gateways([], []);
      InsertAgrees(g, e);
      StableSortSnoc(if d in before then Live(log, d).value else [], e);
    }
  }

  lemma InsertedLive(log: seq<Op>, d: string, e: Entry)
    ensures Live(log + [Inserted(d, e)], d) == Some((if Live(log, d).None? then [] else Live(log, d).value) + [e])
  {
    var longer := log + [Inserted(d, e)];
    assert longer[..|longer| - 1] == log;
  }

  lemma DeleteRepresents(before: map<string, Gateways>, log: seq<Op>, after: map<string, Gateways>,
                         destination: Option<string>, gateway: Option<string>, d: string)
    requires Represents(before, log, d)
    requires destination.None? && gateway.None? ==> after == before
    requires destination.Some? && gateway.None? ==> after == before - {destination.value}
    requires gateway.Some? ==> after.Keys == before.Keys
    requires gateway.Some? ==> forall k | k in after ::
               after[k] == if destination.None? || destination.value == k then Erase(before[k], gateway.value)
                           else before[k]
    ensures Represents(after, log + [Deleted(destination, gateway)], d)
  {
    var longer := log + [Deleted(destination, gateway)];
    assert longer[..|longer| - 1] == log;
    if d in before && gateway.Some? && (destination.None? || destination.value == d) {
      EraseAgrees(before[d], gateway.value);
      SortWithout(Live(log, d).value, gateway.value);
    }
  }

  /** A destination stays a key when its last gateway is deleted: get_route and get_gateway then read
      past the end of its empty index. */
  lemma EmptiedDestination(d: string, g: string, w: nat)
    ensures Live([Inserted(d, Entry(w, g)), Deleted(None, Some(g))], d) == Some([])
  {
    var first, log := [Inserted(d, Entry(w, g))], [Inserted(d, Entry(w, g)), Deleted(None, Some(g))];
    assert first[..0] == [] && log[..1] == first;
    assert Live([], d) == None;
    assert Live(first, d) == Some([] + [Entry(w, g)]);
    assert [] + [Entry(w, g)] == [Entry(w, g)];
    WithoutOne(Entry(w, g), g);
    assert Live(log, d) == Some(Without(Live(first, d).value, g));
  }
}

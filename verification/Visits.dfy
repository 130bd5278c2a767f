/** provider.py, `_visit_edge`: visits to one node, each indexing its entities afresh and growing the index. */
module Visits {
  import opened Collections
  import opened Mapping
  import Parse

  /** The matches of a visit, and what the session and the target view answer during it. */
  datatype Visit = Visit(matches: seq<Parse.FunctionMatch>, target: Target)

  function CreatedBy(entities: seq<Entity>, v: Visit): seq<Entity> {
    Created(Indexed(entities), v.matches, v.target, |entities|)
  }

  /** The entities of the node after these visits: those listed at first and those created since. */
  function EntitiesAfter(listed: seq<Entity>, visits: seq<Visit>): seq<Entity> {
    if visits == [] then listed
    else
      var before := EntitiesAfter(listed, visits[..|visits| - 1]);
      before + CreatedBy(before, visits[|visits| - 1])
  }

  // ---------------------------------------------------------------- one visit

  /** No created address resolved before the visit, and no two of them are equal. */
  lemma {:induction false} FreshAreNew(index: Index, created: seq<Entity>)
    requires Fresh(index, created)
    ensures forall k :: 0 <= k < |created| ==> Lookup(index, created[k].address).None?
    ensures forall j, k :: 0 <= j < k < |created| ==> created[j].address != created[k].address
    decreases |created|
  {
    if created != [] {
      var first, rest := created[0], created[1..];
      FreshAreNew(index[first.address := first], rest);
      forall k | 0 < k < |created|
        ensures Lookup(index, created[k].address).None? && created[k].address != first.address
      {
        assert created[k] == rest[k - 1];
      }
    }
  }

  lemma {:induction false} FirstAtFinds(entities: seq<Entity>, address: int)
    ensures FirstAt(entities, address).None?
            <==> forall k :: 0 <= k < |entities| ==> entities[k].address != address
    ensures FirstOver(entities, address).None?
            <==> forall k :: 0 <= k < |entities| ==>
                   entities[k].address != address && entities[k].address != address + 1
  {
    if entities != [] {
      FirstAtFinds(entities[1..], address);
      assert entities == [entities[0]] + entities[1..];
    }
  }

  lemma {:induction false} FirstConcat(a: seq<Entity>, b: seq<Entity>, address: int)
    ensures FirstAt(a + b, address)
            == (if FirstAt(a, address).Some? then FirstAt(a, address) else FirstAt(b, address))
    ensures FirstOver(a + b, address)
            == (if FirstOver(a, address).Some? then FirstOver(a, address) else FirstOver(b, address))
  {
    if a == [] {
      assert a + b == b;
    } else {
      assert (a + b)[1..] == a[1..] + b;
      FirstConcat(a[1..], b, address);
    }
  }

  /** An unresolved address names no entity. */
  lemma UnresolvedIsNew(entities: seq<Entity>, address: int)
    requires Lookup(Indexed(entities), address).None?
    ensures forall k :: 0 <= k < |entities| ==> entities[k].address != address
  {
    LookupIsScan(entities, address);
    FirstAtFinds(entities, address);
  }

  /** Indexing again after a visit keeps every lookup that succeeded before it. */
  lemma VisitKeepsLookups(entities: seq<Entity>, v: Visit, address: int)
    requires Lookup(Indexed(entities), address).Some?
    ensures Lookup(Indexed(entities + CreatedBy(entities, v)), address) == Lookup(Indexed(entities), address)
  {
    var created := CreatedBy(entities, v);
    CreatedAreFresh(Indexed(entities), v.matches, v.target, |entities|);
    FreshAreNew(Indexed(entities), created);
    hide Indexed, Lookup, FirstAt, FirstOver, Fresh, CreatedBy;
    LookupIsScan(entities, address);
    LookupIsScan(entities + created, address);
    FirstConcat(entities, created, address);
    FirstConcat(entities, created, address - 1);
    FirstAtFinds(created, address);
  }

  // ---------------------------------------------------------------- runs of visits

  /** No entity is ever created at the address of another. */
  lemma {:induction false} CreatedAddressesAreNew(listed: seq<Entity>, visits: seq<Visit>)
    ensures |listed| <= |EntitiesAfter(listed, visits)|
    ensures forall i, j :: 0 <= i < j < |EntitiesAfter(listed, visits)| && |listed| <= j ==>
              EntitiesAfter(listed, visits)[i].address != EntitiesAfter(listed, visits)[j].address
  {
    if visits != [] {
      var n := |visits| - 1;
      var before := EntitiesAfter(listed, visits[..n]);
      var created := CreatedBy(before, visits[n]);
      CreatedAddressesAreNew(listed, visits[..n]);
      CreatedAreFresh(Indexed(before), visits[n].matches, visits[n].target, |before|);
      FreshAreNew(Indexed(before), created);
      hide Indexed, Lookup, Fresh, CreatedBy;
      forall k | 0 <= k < |created|
        ensures forall i :: 0 <= i < |before| ==> before[i].address != created[k].address
      {
        UnresolvedIsNew(before, created[k].address);
      }
    }
  }

  lemma {:induction false} EntitiesSplit(listed: seq<Entity>, earlier: seq<Visit>, later: seq<Visit>)
    ensures EntitiesAfter(listed, earlier + later) == EntitiesAfter(EntitiesAfter(listed, earlier), later)
  {
    if later == [] {
      assert earlier + later == earlier;
    } else {
      var m := |later| - 1;
      assert (earlier + later)[..|earlier + later| - 1] == earlier + later[..m];
      hide CreatedBy;
      EntitiesSplit(listed, earlier, later[..m]);
    }
  }

  /** What an address resolves to at the start of a visit, it resolves to after any later visits. */
  lemma {:induction false} LookupsStay(entities: seq<Entity>, later: seq<Visit>, address: int)
    requires Lookup(Indexed(entities), address).Some?
    ensures Lookup(Indexed(EntitiesAfter(entities, later)), address) == Lookup(Indexed(entities), address)
  {
    hide Indexed, Lookup, CreatedBy;
    if later != [] {
      var m := |later| - 1;
      LookupsStay(entities, later[..m], address);
      VisitKeepsLookups(EntitiesAfter(entities, later[..m]), later[m], address);
    }
  }

  // ---------------------------------------------------------------- what a visit resolved, and what later ones do

  /** An entity created in the same visit one above an even address, before the one created at it. */
  ghost predicate Overtaken(created: seq<Entity>, address: int) {
    address % 2 == 0
    && exists i, j :: 0 <= i < j < |created| && created[i].address == address + 1 && created[j].address == address
  }

  /** Some match at `x` comes before every match at `y` and is followed by one. */
  ghost predicate TargetedThen(matches: seq<Parse.FunctionMatch>, x: int, y: int) {
    exists k: nat, m: nat :: Targets(matches, k, x) && Targets(matches, m, y) && k < m
                             && forall j: nat :: j < k ==> !Targets(matches, j, y)
  }

  /**
   * Before a visit: neither the even address nor the one above is in the index, the even one has a function, and a
   * match one above comes before every match at it and is followed by one.
   */
  ghost predicate Overtakes(index: Index, matches: seq<Parse.FunctionMatch>, target: Target, address: int) {
    && address % 2 == 0 && address !in index && address + 1 !in index && target.hasFunction(address)
    && TargetedThen(matches, address + 1, address)
  }

  lemma OvertakenPrepend(e: Entity, rest: seq<Entity>, address: int)
    requires address % 2 == 0
    ensures Overtaken([e] + rest, address)
            <==> (e.address == address + 1 && CreatedAt(rest, address)) || Overtaken(rest, address)
  {
    var all := [e] + rest;
    if e.address == address + 1 && CreatedAt(rest, address) {
      var k :| 0 <= k < |rest| && rest[k].address == address;
      assert all[0].address == address + 1 && all[k + 1].address == address;
    }
    if Overtaken(rest, address) {
      var i, j :| 0 <= i < j < |rest| && rest[i].address == address + 1 && rest[j].address == address;
      assert all[i + 1].address == address + 1 && all[j + 1].address == address;
    }
    if Overtaken(all, address) {
      var i, j :| 0 <= i < j < |all| && all[i].address == address + 1 && all[j].address == address;
      assert rest[j - 1].address == address;
      if i > 0 {
        assert rest[i - 1].address == address + 1;
      }
    }
  }

  lemma TargetedThenFirst(matches: seq<Parse.FunctionMatch>, x: int, y: int)
    requires matches != [] && x != y
    ensures TargetedThen(matches, x, y)
            <==> (Targets(matches, 0, x) && Targeted(matches[1..], y))
                 || (!Targets(matches, 0, y) && TargetedThen(matches[1..], x, y))
  {
    var rest := matches[1..];
    assert forall k: nat, o :: Targets(rest, k, o) <==> Targets(matches, k + 1, o);
    if TargetedThen(matches, x, y) {
      var k: nat, m: nat :| Targets(matches, k, x) && Targets(matches, m, y) && k < m
                            && forall j: nat :: j < k ==> !Targets(matches, j, y);
      assert Targets(rest, m - 1, y);
      if k > 0 {
        assert Targets(rest, k - 1, x) && !Targets(matches, 0, y);
        assert forall j: nat :: j < k - 1 ==> !Targets(rest, j, y);
      }
    }
    if Targets(matches, 0, x) && Targeted(rest, y) {
      var m: nat :| m < |rest| && Targets(rest, m, y);
      assert Targets(matches, m + 1, y) && forall j: nat :: j < 0 ==> !Targets(matches, j, y);
    }
    if !Targets(matches, 0, y) && TargetedThen(rest, x, y) {
      var k: nat, m: nat :| Targets(rest, k, x) && Targets(rest, m, y) && k < m
                            && forall j: nat :: j < k ==> !Targets(rest, j, y);
      assert Targets(matches, k + 1, x) && Targets(matches, m + 1, y);
      forall j: nat | j < k + 1 ensures !Targets(matches, j, y) {
        assert j > 0 ==> !Targets(rest, j - 1, y);
      }
    }
  }

  /** What a visit overtakes can be told from the index, the matches and the view before it. */
  lemma {:induction false} OvertakenIff(
    index: Index, matches: seq<Parse.FunctionMatch>, target: Target, n: nat, address: int)
    requires address % 2 == 0
    ensures Overtaken(Created(index, matches, target, n), address) <==> Overtakes(index, matches, target, address)
    decreases |matches|
  {
    if matches != [] {
      var e := CreatedFor(index, matches[0], target, n);
      TargetedThenFirst(matches, address + 1, address);
      hide Targeted, TargetedThen, CreatedAt, Overtaken;
      if e.None? {
        OvertakenIff(index, matches[1..], target, n, address);
      } else {
        var next := index[e.value.address := e.value];
        var rest := Created(next, matches[1..], target, n + 1);
        OvertakenIff(next, matches[1..], target, n + 1, address);
        EvenIsCreatedIff(next, matches[1..], target, n + 1, address);
        OvertakenPrepend(e.value, rest, address);
      }
    } else {
      assert !TargetedThen(matches, address + 1, address);
    }
  }

  /** The same for any address: an odd one is never overtaken. */
  lemma OvertakenIsOvertakes(entities: seq<Entity>, v: Visit, address: int)
    ensures Overtaken(CreatedBy(entities, v), address)
            <==> Overtakes(Indexed(entities), v.matches, v.target, address)
  {
    if address % 2 == 0 {
      OvertakenIff(Indexed(entities), v.matches, v.target, |entities|, address);
    }
  }

  lemma {:induction false} ExtendedFinds(index: Index, created: seq<Entity>, address: int)
    requires Fresh(index, created)
    ensures Get(Extended(index, created), address)
            == (if FirstAt(created, address).Some? then FirstAt(created, address) else Get(index, address))
    decreases |created|
  {
    if created != [] {
      var first, rest := created[0], created[1..];
      ExtendedFinds(index[first.address := first], rest, address);
      FreshAreNew(index[first.address := first], rest);
      FirstAtFinds(rest, address);
    }
  }

  lemma {:induction false} FirstOverIsFirstAtUnlessOvertaken(created: seq<Entity>, address: int)
    requires forall j, k :: 0 <= j < k < |created| ==> created[j].address != created[k].address
    requires FirstAt(created, address).Some? && address % 2 == 0
    ensures FirstOver(created, address) == FirstAt(created, address) <==> !Overtaken(created, address)
    decreases |created|
  {
    var first, rest := created[0], created[1..];
    assert created == [first] + rest;
    OvertakenPrepend(first, rest, address);
    NoneThereNoneOvertaken(rest, address);
    FirstAtFinds(rest, address);
    hide Overtaken, CreatedAt;
    if first.address == address + 1 {
      FirstAtAddress(created, address);
    } else if first.address != address {
      FirstOverIsFirstAtUnlessOvertaken(rest, address);
    }
  }

  lemma NoneThereNoneOvertaken(created: seq<Entity>, address: int)
    ensures Overtaken(created, address) ==> CreatedAt(created, address)
    ensures CreatedAt(created, address) <==> !forall k :: 0 <= k < |created| ==> created[k].address != address
  {
  }

  lemma {:induction false} FirstAtAddress(entities: seq<Entity>, address: int)
    requires FirstAt(entities, address).Some?
    ensures FirstAt(entities, address).value.address == address
  {
    if entities[0].address != address {
      FirstAtAddress(entities[1..], address);
    }
  }

  lemma OddLookup(index: Index, address: int)
    requires address % 2 != 0
    ensures Lookup(index, address)
            == (if Get(index, address).Some? then Get(index, address) else Get(index, address - 1))
  {
  }

  lemma NewlyResolvedEven(entities: seq<Entity>, created: seq<Entity>, address: int)
    requires Fresh(Indexed(entities), created) && address % 2 == 0 && Lookup(Indexed(entities), address).None?
    requires Lookup(Extended(Indexed(entities), created), address).Some?
    ensures Lookup(Indexed(entities + created), address).Some?
    ensures Lookup(Indexed(entities + created), address) == Lookup(Extended(Indexed(entities), created), address)
            <==> !Overtaken(created, address)
  {
    FreshAreNew(Indexed(entities), created);
    EvenLookup(Indexed(entities), address);
    EvenLookup(Extended(Indexed(entities), created), address);
    LookupIsScan(entities, address);
    LookupIsScan(entities + created, address);
    assert Scan(entities, address) == FirstOver(entities, address);
    assert Scan(entities + created, address) == FirstOver(entities + created, address);
    hide Fresh, Indexed, Extended, Lookup, Scan, FirstAt, FirstOver, Overtaken, Get;
    ExtendedFinds(Indexed(entities), created, address);
    FirstConcat(entities, created, address);
    FirstOverIsFirstAtUnlessOvertaken(created, address);
    FirstAtFinds(created, address);
  }

  lemma NewlyResolvedOdd(entities: seq<Entity>, created: seq<Entity>, address: int)
    requires Fresh(Indexed(entities), created) && address % 2 != 0 && Lookup(Indexed(entities), address).None?
    requires Lookup(Extended(Indexed(entities), created), address).Some?
    ensures Lookup(Indexed(entities + created), address) == Lookup(Extended(Indexed(entities), created), address)
  {
    OddLookup(Indexed(entities), address);
    OddLookup(Extended(Indexed(entities), created), address);
    LookupIsScan(entities, address);
    LookupIsScan(entities + created, address);
    hide Fresh, Indexed, Extended, Lookup, FirstAt, FirstOver, Get;
    ExtendedFinds(Indexed(entities), created, address);
    ExtendedFinds(Indexed(entities), created, address - 1);
    FirstConcat(entities, created, address);
    FirstConcat(entities, created, address - 1);
  }

  /** An address that resolved before the visit is not one that was overtaken in it. */
  lemma ResolvedIsNotOvertaken(index: Index, created: seq<Entity>, address: int)
    requires Fresh(index, created) && Lookup(index, address).Some?
    ensures !Overtaken(created, address)
  {
    FreshAreNew(index, created);
  }

  /**
   * What the grown index of a visit resolves an address to, an index built afresh resolves it to exactly if the visit
   * does not overtake it: the matches, the index and the view decide it before the visit.
   */
  lemma ResolvedStaysUnlessOvertaken(entities: seq<Entity>, v: Visit, address: int)
    requires Lookup(Extended(Indexed(entities), CreatedBy(entities, v)), address).Some?
    ensures Lookup(Indexed(entities + CreatedBy(entities, v)), address).Some?
    ensures Lookup(Indexed(entities + CreatedBy(entities, v)), address)
            == Lookup(Extended(Indexed(entities), CreatedBy(entities, v)), address)
            <==> !Overtakes(Indexed(entities), v.matches, v.target, address)
  {
    var index, created := Indexed(entities), CreatedBy(entities, v);
    CreatedAreFresh(index, v.matches, v.target, |entities|);
    OvertakenIsOvertakes(entities, v, address);
    assert address % 2 != 0 ==> !Overtaken(created, address);
    hide Created, CreatedBy, Fresh, Indexed, Extended, Lookup, Overtaken, Overtakes;
    if Lookup(index, address).Some? {
      GrowthKeepsLookups(index, created, address);
      VisitKeepsLookups(entities, v, address);
      ResolvedIsNotOvertaken(index, created, address);
    } else if address % 2 == 0 {
      NewlyResolvedEven(entities, created, address);
    } else {
      NewlyResolvedOdd(entities, created, address);
    }
  }

  /** The same over every run: what a visit resolved, later visits resolve alike exactly unless it overtakes it. */
  lemma ResolutionsLastUnlessOvertaken(
    listed: seq<Entity>, earlier: seq<Visit>, v: Visit, later: seq<Visit>, address: int)
    requires var before := EntitiesAfter(listed, earlier);
             Lookup(Extended(Indexed(before), CreatedBy(before, v)), address).Some?
    ensures var before := EntitiesAfter(listed, earlier);
            var created := CreatedBy(before, v);
            Lookup(Indexed(EntitiesAfter(listed, earlier + ([v] + later))), address)
            == Lookup(Extended(Indexed(before), created), address)
            <==> !Overtakes(Indexed(before), v.matches, v.target, address)
  {
    var before := EntitiesAfter(listed, earlier);
    hide Indexed, Lookup, CreatedBy, Extended, Overtakes;
    EntitiesSplit(listed, earlier, [v] + later);
    EntitiesSplit(before, [v], later);
    assert [v][..0] == [] && EntitiesAfter(before, [v]) == before + CreatedBy(before, v);
    ResolvedStaysUnlessOvertaken(before, v, address);
    LookupsStay(before + CreatedBy(before, v), later, address);
  }

  /** With the same function matched first at its Thumb address and then at its even one, later visits disagree. */
  lemma OvertakenExample(odd: Parse.FunctionMatch, even: Parse.FunctionMatch, target: Target)
    requires odd.targetOffset == Some(5) && even.targetOffset == Some(4) && target.hasFunction(4)
    ensures var v := Visit([odd, even], target);
            var created := CreatedBy([], v);
            && |created| == 2 && created[0].address == 5 && created[1].address == 4
            && Lookup(Extended(Indexed([]), created), 4) == Some(created[1])
            && Lookup(Indexed([] + created), 4) == Some(created[0])
  {
    var e5 := Entity(target.newId(0), 5, target.nameAt(5));
    var e4 := Entity(target.newId(1), 4, target.nameAt(4));
    var index: Index := map[];
    assert Cleared(5) == 4 && Cleared(4) == 4;
    assert CreatedFor(index, odd, target, 0) == Some(e5);
    assert CreatedFor(index[5 := e5], even, target, 1) == Some(e4);
    assert [odd, even][1..] == [even] && [even][1..] == [];
    assert Created(index[5 := e5], [even], target, 1) == [e4];
    assert Created(index, [odd, even], target, 0) == [e5, e4];
    assert [e5, e4][1..] == [e4] && [e4][1..] == [];
    assert Extended(index[5 := e5], [e4]) == index[5 := e5][4 := e4];
    assert [] + [e5, e4] == [e5, e4];
    LookupIsScan([e5, e4], 4);
  }
}

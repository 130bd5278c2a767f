/** mapping.py and provider.py's match-only entities: an address index with Thumb aliases, and its use. */
module Mapping {
  import opened Collections
  import opened Parse
  import Scoring

  datatype Entity = Entity(id: int, address: int, name: string)

  datatype MatchPair = MatchPair(
    sourceEntity: int, targetEntity: int, similarity: int, confidence: int, sourceOffset: int, targetOffset: int,
    score: real, flags: int)

  type Index = map<int, Entity>

  /** `address & ~1`, for any integer in two's complement. */
  function Cleared(address: int): int {
    address - address % 2
  }

  function Aliases(address: int): seq<int> {
    if Cleared(address) != address then [address, Cleared(address)] else [address]
  }

  function Lookup(index: Index, address: int): Option<Entity> {
    if address in index then Some(index[address])
    else if Cleared(address) in index then Some(index[Cleared(address)])
    else None
  }

  function SetDefault(index: Index, address: int, entity: Entity): Index {
    if address in index then index else index[address := entity]
  }

  function WithEntity(index: Index, entity: Entity): Index {
    var own := SetDefault(index, entity.address, entity);
    if Cleared(entity.address) != entity.address then SetDefault(own, Cleared(entity.address), entity) else own
  }

  function Indexed(entities: seq<Entity>): Index {
    if entities == [] then map[] else WithEntity(Indexed(entities[..|entities| - 1]), entities[|entities| - 1])
  }

  method LookupEntity(index: Index, address: int) returns (found: Option<Entity>)
    ensures found == Lookup(index, address)
  {
    var aliases := Aliases(address);
    for i := 0 to |aliases|
      invariant i > 0 ==> address !in index
      invariant i > 1 ==> Cleared(address) !in index
    {
      if aliases[i] in index {
        return Some(index[aliases[i]]);
      }
    }
    found := None;
  }

  method IndexEntities(entities: seq<Entity>) returns (index: Index)
    ensures index == Indexed(entities)
  {
    index := map[];
    for n := 0 to |entities|
      invariant index == Indexed(entities[..n])
    {
      var entity := entities[n];
      assert entities[..n + 1][..n] == entities[..n];
      ghost var before := index;
      var aliases := Aliases(entity.address);
      for i := 0 to |aliases|
        invariant i == 0 ==> index == before
        invariant i == 1 ==> index == SetDefault(before, entity.address, entity)
        invariant i == 2 ==> index == WithEntity(before, entity)
      {
        if aliases[i] !in index {
          index := index[aliases[i] := entity];
        }
      }
    }
    assert entities[..|entities|] == entities;
  }

  // ---------------------------------------------------------------- the index agrees with a scan

  /** The first entity at exactly this address. */
  function FirstAt(entities: seq<Entity>, address: int): Option<Entity> {
    if entities == [] then None
    else if entities[0].address == address then Some(entities[0])
    else FirstAt(entities[1..], address)
  }

  /** The first entity at an even address or one above it. */
  function FirstOver(entities: seq<Entity>, address: int): Option<Entity> {
    if entities == [] then None
    else if entities[0].address == address || entities[0].address == address + 1 then Some(entities[0])
    else FirstOver(entities[1..], address)
  }

  function Scan(entities: seq<Entity>, address: int): Option<Entity> {
    if address % 2 == 0 then FirstOver(entities, address)
    else if FirstAt(entities, address).Some? then FirstAt(entities, address)
    else FirstAt(entities, address - 1)
  }

  function Get(index: Index, address: int): Option<Entity> {
    if address in index then Some(index[address]) else None
  }

  lemma {:induction false} FirstAppend(entities: seq<Entity>, e: Entity, address: int)
    ensures FirstAt(entities + [e], address)
            == (if FirstAt(entities, address).Some? then FirstAt(entities, address)
                else if e.address == address then Some(e) else None)
    ensures FirstOver(entities + [e], address)
            == (if FirstOver(entities, address).Some? then FirstOver(entities, address)
                else if e.address == address || e.address == address + 1 then Some(e) else None)
  {
    if entities != [] {
      assert (entities + [e])[1..] == entities[1..] + [e];
      FirstAppend(entities[1..], e, address);
    }
  }

  lemma {:induction false} IndexHoldsFirst(entities: seq<Entity>, address: int)
    ensures Get(Indexed(entities), address)
            == (if address % 2 == 0 then FirstOver(entities, address) else FirstAt(entities, address))
  {
    if entities != [] {
      var n := |entities| - 1;
      IndexHoldsFirst(entities[..n], address);
      FirstAppend(entities[..n], entities[n], address);
      assert entities == entities[..n] + [entities[n]];
    }
  }

  lemma {:induction false} FirstOverIsFirstAt(entities: seq<Entity>, address: int)
    requires FirstAt(entities, address + 1).None?
    ensures FirstOver(entities, address) == FirstAt(entities, address)
  {
    if entities != [] {
      if entities[0].address != address {
        FirstOverIsFirstAt(entities[1..], address);
      }
    }
  }

  /** Looking an address up in the index finds what a plain scan of the entities finds. */
  lemma LookupIsScan(entities: seq<Entity>, address: int)
    ensures Lookup(Indexed(entities), address) == Scan(entities, address)
  {
    IndexHoldsFirst(entities, address);
    if address % 2 != 0 {
      IndexHoldsFirst(entities, address - 1);
      if FirstAt(entities, address).None? {
        FirstOverIsFirstAt(entities, address - 1);
      }
    }
  }

  // ---------------------------------------------------------------- match-only entities

  /** What the session and the target view answer while entities are made. */
  datatype Target = Target(hasFunction: int -> bool, nameAt: int -> string, newId: nat -> int)
  {
    predicate InView(offset: int) {
      hasFunction(offset) || hasFunction(Cleared(offset))
    }
  }

  /** The index after each created entity is put at its own address. */
  function Extended(index: Index, created: seq<Entity>): Index
    decreases |created|
  {
    if created == [] then index else Extended(index[created[0].address := created[0]], created[1..])
  }

  function CreatedFor(index: Index, m: FunctionMatch, target: Target, n: nat): Option<Entity> {
    if m.targetOffset.None? || Lookup(index, m.targetOffset.value).Some? then None
    else if !target.InView(m.targetOffset.value) then None
    else Some(Entity(target.newId(n), m.targetOffset.value, target.nameAt(m.targetOffset.value)))
  }

  /** The entities that the matches make a node with `n` creations behind it create, in order. */
  function Created(index: Index, matches: seq<FunctionMatch>, target: Target, n: nat): seq<Entity>
    decreases |matches|
  {
    if matches == [] then []
    else
      match CreatedFor(index, matches[0], target, n)
      case None => Created(index, matches[1..], target, n)
      case Some(e) => [e] + Created(index[e.address := e], matches[1..], target, n + 1)
  }

  lemma CreatedStep(index: Index, created: seq<Entity>, matches: seq<FunctionMatch>, target: Target, k: nat)
    requires k < |matches|
    ensures var e := CreatedFor(index, matches[k], target, |created|);
            var next := if e.None? then index else index[e.value.address := e.value];
            var made := if e.None? then created else created + [e.value];
            var now, rest := Created(index, matches[k..], target, |created|),
                             Created(next, matches[k + 1..], target, |made|);
            created + now == made + rest && Extended(index, now) == Extended(next, rest)
  {
    assert matches[k..][1..] == matches[k + 1..];
    var e := CreatedFor(index, matches[k], target, |created|);
    if e.Some? {
      var next := index[e.value.address := e.value];
      var rest := Created(next, matches[k + 1..], target, |created| + 1);
      ExtendedStep(index, e.value, rest);
      assert created + ([e.value] + rest) == created + [e.value] + rest;
    }
  }

  lemma ExtendedStep(index: Index, e: Entity, rest: seq<Entity>)
    ensures Extended(index, [e] + rest) == Extended(index[e.address := e], rest)
  {
    assert ([e] + rest)[1..] == rest;
  }

  /** A target node of the session: the entities created on it, and the index of its entities. */
  class TargetNode {
    var index: Index
    var created: seq<Entity>

    constructor (entities: seq<Entity>)
      ensures index == Indexed(entities) && created == []
    {
      created := [];
      new;
      index := IndexEntities(entities);
    }

    method CreateEntity(offset: int, name: string, target: Target) returns (id: int)
      modifies this`created
      ensures id == target.newId(|old(created)|)
      ensures created == old(created) + [Entity(id, offset, name)]
    {
      id := target.newId(|created|);
      created := created + [Entity(id, offset, name)];
    }

    method AddMatchOnlyEntity(m: FunctionMatch, target: Target)
      modifies this
      ensures var e := CreatedFor(old(index), m, target, |old(created)|);
              && created == (if e.None? then old(created) else old(created) + [e.value])
              && index == (if e.None? then old(index) else old(index)[e.value.address := e.value])
    {
      if m.targetOffset.None? {
        return;
      }
      var offset := m.targetOffset.value;
      var found := LookupEntity(index, offset);
      if found.Some? {
        return;
      }
      if !target.hasFunction(offset) && !target.hasFunction(Cleared(offset)) {
        return;
      }
      var name := target.nameAt(offset);
      var id := CreateEntity(offset, name, target);
      index := index[offset := Entity(id, offset, name)];
    }

    method AddMatchOnlyEntities(matches: seq<FunctionMatch>, target: Target)
      modifies this
      ensures created == old(created) + Created(old(index), matches, target, |old(created)|)
      ensures index == Extended(old(index), Created(old(index), matches, target, |old(created)|))
    {
      ghost var all := created + Created(index, matches, target, |created|);
      ghost var grown := Extended(index, Created(index, matches, target, |created|));
      assert matches[0..] == matches;
      for k := 0 to |matches|
        invariant created + Created(index, matches[k..], target, |created|) == all
        invariant Extended(index, Created(index, matches[k..], target, |created|)) == grown
      {
        hide *;
        CreatedStep(index, created, matches, target, k);
        AddMatchOnlyEntity(matches[k], target);
      }
    }
  }

  /** Every created entity went to an address that resolved to nothing when it was created. */
  ghost predicate Fresh(index: Index, created: seq<Entity>)
    decreases |created|
  {
    created == []
    || (Lookup(index, created[0].address).None? && Fresh(index[created[0].address := created[0]], created[1..]))
  }

  lemma {:induction false} CreatedAreFresh(index: Index, matches: seq<FunctionMatch>, target: Target, n: nat)
    ensures Fresh(index, Created(index, matches, target, n))
    decreases |matches|
  {
    if matches != [] {
      var e := CreatedFor(index, matches[0], target, n);
      if e.None? {
        CreatedAreFresh(index, matches[1..], target, n);
      } else {
        CreatedAreFresh(index[e.value.address := e.value], matches[1..], target, n + 1);
        var rest := Created(index[e.value.address := e.value], matches[1..], target, n + 1);
        assert ([e.value] + rest)[1..] == rest;
      }
    }
  }

  /** Entity `e` is the one that match `m` calls for as the `n`-th created. */
  predicate MadeFor(e: Entity, m: FunctionMatch, target: Target, n: nat) {
    && m.targetOffset == Some(e.address) && e.name == target.nameAt(e.address) && e.id == target.newId(n)
    && (target.hasFunction(e.address) || target.hasFunction(e.address - e.address % 2))
  }

  ghost predicate MadeInOrder(
    created: seq<Entity>, places: seq<nat>, matches: seq<FunctionMatch>, target: Target, n: nat)
  {
    && |places| == |created|
    && (forall j, k :: 0 <= j < k < |places| ==> places[j] < places[k])
    && (forall k :: 0 <= k < |places| ==>
          places[k] < |matches| && MadeFor(created[k], matches[places[k]], target, n + k))
  }

  /**
   * Every created entity is at the offset of a match where the view has a function, in the order of the matches; its
   * name is that of the very offset, and its id is the next one.
   */
  lemma {:induction false} CreatedFromMatches(index: Index, matches: seq<FunctionMatch>, target: Target, n: nat)
    returns (places: seq<nat>)
    ensures MadeInOrder(Created(index, matches, target, n), places, matches, target, n)
    decreases |matches|
  {
    CreatedUnfolds(index, matches, target, n);
    places := [];
    if matches != [] {
      var e := CreatedFor(index, matches[0], target, n);
      if e.None? {
        hide *;
        var later := CreatedFromMatches(index, matches[1..], target, n);
        places := MadeLater([], Created(index, matches[1..], target, n), later, matches, target, n);
      } else {
        hide *;
        var next := index[e.value.address := e.value];
        var later := CreatedFromMatches(next, matches[1..], target, n + 1);
        places := MadeLater([e.value], Created(next, matches[1..], target, n + 1), later, matches, target, n);
      }
    }
  }

  lemma CreatedUnfolds(index: Index, matches: seq<FunctionMatch>, target: Target, n: nat)
    ensures matches == [] ==> MadeInOrder(Created(index, matches, target, n), [], matches, target, n)
    ensures matches != [] ==>
              var e, rest := CreatedFor(index, matches[0], target, n), matches[1..];
              if e.None? then Created(index, matches, target, n) == [] + Created(index, rest, target, n)
              else
                && MadeFor(e.value, matches[0], target, n)
                && Created(index, matches, target, n)
                   == [e.value] + Created(index[e.value.address := e.value], rest, target, n + 1)
  {
  }

  lemma MadeLater(
    first: seq<Entity>, rest: seq<Entity>, later: seq<nat>, matches: seq<FunctionMatch>, target: Target, n: nat)
    returns (places: seq<nat>)
    requires matches != [] && |first| <= 1 && MadeInOrder(rest, later, matches[1..], target, n + |first|)
    requires first != [] ==> MadeFor(first[0], matches[0], target, n)
    ensures MadeInOrder(first + rest, places, matches, target, n)
  {
    hide MadeFor;
    var shifted := seq(|later|, i requires 0 <= i < |later| => later[i] + 1);
    places := (if first == [] then [] else [0]) + shifted;
    forall k | |first| <= k < |places|
      ensures places[k] == later[k - |first|] + 1 && MadeFor((first + rest)[k], matches[places[k]], target, n + k)
    {
      assert matches[1..][later[k - |first|]] == matches[places[k]];
    }
  }

  /** An address that already resolves keeps its entity while others are created. */
  lemma {:induction false} GrowthKeepsLookups(index: Index, created: seq<Entity>, address: int)
    requires Fresh(index, created) && Lookup(index, address).Some?
    ensures Lookup(Extended(index, created), address) == Lookup(index, address)
    decreases |created|
  {
    if created != [] {
      GrowthKeepsLookups(index[created[0].address := created[0]], created[1..], address);
    }
  }

  /** After growth an offset of a match resolves exactly when it did before or a created entity serves it. */
  lemma {:induction false} GrowthIsComplete(index: Index, matches: seq<FunctionMatch>, target: Target, n: nat, k: nat)
    requires k < |matches| && matches[k].targetOffset.Some?
    requires target.InView(matches[k].targetOffset.value)
    ensures Lookup(Extended(index, Created(index, matches, target, n)), matches[k].targetOffset.value).Some?
    decreases |matches|
  {
    var offset := matches[k].targetOffset.value;
    var e := CreatedFor(index, matches[0], target, n);
    if e.None? {
      if k == 0 {
        CreatedAreFresh(index, matches[1..], target, n);
        GrowthKeepsLookups(index, Created(index, matches[1..], target, n), offset);
      } else {
        GrowthIsComplete(index, matches[1..], target, n, k - 1);
      }
    } else {
      var next := index[e.value.address := e.value];
      var rest := Created(next, matches[1..], target, n + 1);
      ExtendedStep(index, e.value, rest);
      if k == 0 {
        CreatedAreFresh(next, matches[1..], target, n + 1);
        GrowthKeepsLookups(next, rest, offset);
      } else {
        GrowthIsComplete(next, matches[1..], target, n + 1, k - 1);
      }
    }
  }

  /** Where the view has no function, creating entities changes no lookup. */
  lemma {:induction false} GrowthIsLocal(index: Index, matches: seq<FunctionMatch>, target: Target, n: nat, offset: int)
    requires !target.InView(offset)
    ensures Lookup(Extended(index, Created(index, matches, target, n)), offset) == Lookup(index, offset)
    decreases |matches|
  {
    if matches != [] {
      var e := CreatedFor(index, matches[0], target, n);
      if e.None? {
        GrowthIsLocal(index, matches[1..], target, n, offset);
      } else {
        var next := index[e.value.address := e.value];
        ExtendedStep(index, e.value, Created(next, matches[1..], target, n + 1));
        GrowthIsLocal(next, matches[1..], target, n + 1, offset);
      }
    }
  }

  // ---------------------------------------------------------------- the grown index against a rebuilt one

  lemma RebuildStep(entities: seq<Entity>, e: Entity)
    requires e.address % 2 == 0 && Lookup(Indexed(entities), e.address).None?
    ensures Indexed(entities + [e]) == Indexed(entities)[e.address := e]
  {
    assert (entities + [e])[..|entities|] == entities;
  }

  lemma {:induction false} EvenGrowthIsRebuild(entities: seq<Entity>, created: seq<Entity>)
    requires Fresh(Indexed(entities), created) && forall k :: 0 <= k < |created| ==> created[k].address % 2 == 0
    ensures Indexed(entities + created) == Extended(Indexed(entities), created)
    decreases |created|
  {
    if created == [] {
      assert entities + created == entities;
    } else {
      var first := created[0];
      RebuildStep(entities, first);
      EvenGrowthIsRebuild(entities + [first], created[1..]);
      assert entities + [first] + created[1..] == entities + created;
    }
  }

  lemma {:induction false} ExtendedHolds(index: Index, created: seq<Entity>, address: int)
    ensures var now := Get(Extended(index, created), address);
            now == Get(index, address) || (now.Some? && now.value.address == address)
    decreases |created|
  {
    if created != [] {
      ExtendedHolds(index[created[0].address := created[0]], created[1..], address);
    }
  }

  lemma {:induction false} FirstOverConcat(a: seq<Entity>, b: seq<Entity>, address: int)
    requires FirstOver(a, address).None?
    ensures FirstOver(a + b, address) == FirstOver(b, address)
  {
    if a == [] {
      assert a + b == b;
    } else {
      assert (a + b)[1..] == a[1..] + b;
      FirstOverConcat(a[1..], b, address);
    }
  }

  lemma OddFirstDiffers(entities: seq<Entity>, created: seq<Entity>)
    requires created != [] && created[0].address % 2 != 0 && Lookup(Indexed(entities), created[0].address).None?
    ensures var address := created[0].address - 1;
            Lookup(Extended(Indexed(entities), created), address) != Lookup(Indexed(entities + created), address)
  {
    hide *;
    var first, address := created[0], created[0].address - 1;
    OddMiss(Indexed(entities), first.address);
    FirstOverHead(created);
    assert address % 2 == 0;
    ExtendedHolds(Indexed(entities), created, address);
    IndexHoldsFirst(entities, address);
    FirstOverConcat(entities, created, address);
    IndexHoldsFirst(entities + created, address);
    EvenLookup(Extended(Indexed(entities), created), address);
    EvenLookup(Indexed(entities + created), address);
  }

  lemma FirstOverHead(entities: seq<Entity>)
    requires entities != []
    ensures FirstOver(entities, entities[0].address - 1) == Some(entities[0])
  {
  }

  lemma OddMiss(index: Index, address: int)
    requires Lookup(index, address).None? && address % 2 != 0
    ensures Get(index, address - 1).None?
  {
  }

  lemma EvenLookup(index: Index, address: int)
    requires address % 2 == 0
    ensures Lookup(index, address) == Get(index, address)
  {
  }

  /** An entity created at an odd address is found one below only after the index is rebuilt. */
  lemma {:induction false} OddGrowthDiffers(entities: seq<Entity>, created: seq<Entity>, k: nat) returns (address: int)
    requires Fresh(Indexed(entities), created) && k < |created| && created[k].address % 2 != 0
    ensures Lookup(Extended(Indexed(entities), created), address) != Lookup(Indexed(entities + created), address)
    decreases |created|
  {
    var first, rest, index := created[0], created[1..], Indexed(entities);
    hide Indexed;
    assert Lookup(index, first.address).None? && Fresh(index[first.address := first], rest);
    assert Extended(index, created) == Extended(index[first.address := first], rest);
    hide Fresh, Extended, Lookup;
    if first.address % 2 != 0 {
      OddFirstDiffers(entities, created);
      address := first.address - 1;
    } else {
      RebuildStep(entities, first);
      address := OddGrowthDiffers(entities + [first], rest, k - 1);
      assert entities + [first] + rest == entities + created;
    }
  }

  /** Extending in place answers like rebuilding from all entities exactly when no address put in is odd. */
  lemma ExtensionIsRebuildIffEven(entities: seq<Entity>, created: seq<Entity>)
    requires Fresh(Indexed(entities), created)
    ensures (forall a :: Lookup(Extended(Indexed(entities), created), a) == Lookup(Indexed(entities + created), a))
            <==> (forall k :: 0 <= k < |created| ==> created[k].address % 2 == 0)
  {
    if k: nat :| k < |created| && created[k].address % 2 != 0 {
      var a := OddGrowthDiffers(entities, created, k);
    } else {
      EvenGrowthIsRebuild(entities, created);
    }
  }

  // ---------------------------------------------------------------- which entities the matches make

  predicate CreatedAt(created: seq<Entity>, address: int) {
    exists k :: 0 <= k < |created| && created[k].address == address
  }

  /** Match `k` has this target offset. */
  predicate Targets(matches: seq<FunctionMatch>, k: nat, offset: int) {
    k < |matches| && matches[k].targetOffset == Some(offset)
  }

  predicate Targeted(matches: seq<FunctionMatch>, offset: int) {
    exists k: nat :: k < |matches| && Targets(matches, k, offset)
  }

  /** Some match at `offset` has no match at `rival` before it. */
  predicate TargetedBefore(matches: seq<FunctionMatch>, offset: int, rival: int) {
    exists k: nat :: k < |matches| && Targets(matches, k, offset)
                     && forall j: nat :: j < k ==> !Targets(matches, j, rival)
  }

  /** The matches make an entity at an even offset: it has a function and no index entry, and some match is at it. */
  predicate MakesEven(index: Index, matches: seq<FunctionMatch>, target: Target, offset: int) {
    offset !in index && target.hasFunction(offset) && Targeted(matches, offset)
  }

  /**
   * The matches make an entity at an odd offset: neither it nor the even one below is in the index, either has a
   * function, and some match is at it before any at the even one, unless that one has no function and so no entity.
   */
  predicate MakesOdd(index: Index, matches: seq<FunctionMatch>, target: Target, offset: int) {
    && offset !in index && offset - 1 !in index && target.InView(offset)
    && (if target.hasFunction(offset - 1) then TargetedBefore(matches, offset, offset - 1)
        else Targeted(matches, offset))
  }

  lemma CreatedAtPrepend(e: Entity, rest: seq<Entity>, address: int)
    ensures CreatedAt([e] + rest, address) <==> e.address == address || CreatedAt(rest, address)
  {
    if CreatedAt(rest, address) {
      var k :| 0 <= k < |rest| && rest[k].address == address;
      assert ([e] + rest)[k + 1].address == address;
    }
    if e.address == address {
      assert ([e] + rest)[0].address == address;
    }
    if CreatedAt([e] + rest, address) && e.address != address {
      var k :| 0 <= k < |[e] + rest| && ([e] + rest)[k].address == address;
      assert rest[k - 1].address == address;
    }
  }

  lemma TargetedFirst(matches: seq<FunctionMatch>, offset: int)
    requires matches != []
    ensures Targeted(matches, offset) <==> Targets(matches, 0, offset) || Targeted(matches[1..], offset)
  {
    if Targeted(matches, offset) && !Targets(matches, 0, offset) {
      var k: nat :| k < |matches| && Targets(matches, k, offset);
      assert Targets(matches[1..], k - 1, offset);
    }
    if Targeted(matches[1..], offset) {
      var k: nat :| k < |matches| - 1 && Targets(matches[1..], k, offset);
      assert Targets(matches, k + 1, offset);
    }
  }

  lemma TargetedBeforeFirst(matches: seq<FunctionMatch>, offset: int, rival: int)
    requires matches != [] && offset != rival
    ensures TargetedBefore(matches, offset, rival)
            <==> Targets(matches, 0, offset)
                 || (!Targets(matches, 0, rival) && TargetedBefore(matches[1..], offset, rival))
  {
    var rest := matches[1..];
    assert forall k: nat, o :: Targets(rest, k, o) <==> Targets(matches, k + 1, o);
    if TargetedBefore(matches, offset, rival) && !Targets(matches, 0, offset) {
      var k: nat :| k < |matches| && Targets(matches, k, offset)
                    && forall j: nat :: j < k ==> !Targets(matches, j, rival);
      assert Targets(rest, k - 1, offset);
      assert forall j: nat :: j < k - 1 ==> !Targets(rest, j, rival);
      assert !Targets(matches, 0, rival);
    }
    if !Targets(matches, 0, rival) && TargetedBefore(rest, offset, rival) {
      var k: nat :| k < |rest| && Targets(rest, k, offset) && forall j: nat :: j < k ==> !Targets(rest, j, rival);
      assert Targets(matches, k + 1, offset);
      forall j: nat | j < k + 1 ensures !Targets(matches, j, rival) {
        assert j > 0 ==> !Targets(rest, j - 1, rival);
      }
    }
    if Targets(matches, 0, offset) {
      assert forall j: nat :: j < 0 ==> !Targets(matches, j, rival);
    }
  }

  /** When an even address is created. */
  lemma {:induction false} EvenIsCreatedIff(
    index: Index, matches: seq<FunctionMatch>, target: Target, n: nat, offset: int)
    requires offset % 2 == 0
    ensures CreatedAt(Created(index, matches, target, n), offset) <==> MakesEven(index, matches, target, offset)
    decreases |matches|
  {
    if matches != [] {
      var e := CreatedFor(index, matches[0], target, n);
      TargetedFirst(matches, offset);
      if e.None? {
        EvenIsCreatedIff(index, matches[1..], target, n, offset);
      } else {
        var next := index[e.value.address := e.value];
        EvenIsCreatedIff(next, matches[1..], target, n + 1, offset);
        CreatedAtPrepend(e.value, Created(next, matches[1..], target, n + 1), offset);
      }
    }
  }

  /** When an odd address is created. */
  lemma {:induction false} OddIsCreatedIff(
    index: Index, matches: seq<FunctionMatch>, target: Target, n: nat, offset: int)
    requires offset % 2 != 0
    ensures CreatedAt(Created(index, matches, target, n), offset) <==> MakesOdd(index, matches, target, offset)
    decreases |matches|
  {
    if matches != [] {
      var e := CreatedFor(index, matches[0], target, n);
      TargetedFirst(matches, offset);
      TargetedBeforeFirst(matches, offset, offset - 1);
      hide Targeted, TargetedBefore, CreatedAt;
      if e.None? {
        OddIsCreatedIff(index, matches[1..], target, n, offset);
      } else {
        var next := index[e.value.address := e.value];
        OddIsCreatedIff(next, matches[1..], target, n + 1, offset);
        CreatedAtPrepend(e.value, Created(next, matches[1..], target, n + 1), offset);
      }
    }
  }

  /**
   * Growing in place answers like rebuilding from all entities exactly when the matches, the index and the view make no
   * entity at an odd offset.
   */
  lemma GrowthIsRebuildIffEven(entities: seq<Entity>, matches: seq<FunctionMatch>, target: Target, n: nat)
    ensures var created := Created(Indexed(entities), matches, target, n);
            (forall a :: Lookup(Extended(Indexed(entities), created), a) == Lookup(Indexed(entities + created), a))
            <==> (forall o: int :: o % 2 != 0 ==> !MakesOdd(Indexed(entities), matches, target, o))
  {
    var index := Indexed(entities);
    var created := Created(index, matches, target, n);
    CreatedAreFresh(index, matches, target, n);
    ExtensionIsRebuildIffEven(entities, created);
    hide Created, Extended, Indexed, MakesOdd, Fresh, Lookup;
    forall o: int | o % 2 != 0 ensures CreatedAt(created, o) <==> MakesOdd(index, matches, target, o) {
      OddIsCreatedIff(index, matches, target, n, o);
    }
    forall k | 0 <= k < |created| && created[k].address % 2 != 0
      ensures MakesOdd(index, matches, target, created[k].address)
    {
      assert CreatedAt(created, created[k].address);
    }
  }

  // ---------------------------------------------------------------- pairing

  datatype Outcome = Paired(pair: MatchPair) | Unresolved | Unscheduled

  function OutcomeOf(m: FunctionMatch, source: Index, target: Index, scheduled: set<int>): Outcome {
    if m.targetOffset.None? then Unresolved
    else
      var s, t := Lookup(source, m.sourceOffset), Lookup(target, m.targetOffset.value);
      if s.None? || t.None? then Unresolved
      else if s.value.id !in scheduled then Unscheduled
      else
        Paired(MatchPair(s.value.id, t.value.id,
                         if m.IsPicHash() then 255 else Scoring.SimilarityFromMinhash(m.score), m.Confidence(),
                         m.sourceOffset, m.targetOffset.value, m.score, m.flags))
  }

  function Outcomes(matches: seq<FunctionMatch>, source: Index, target: Index, scheduled: set<int>): seq<Outcome> {
    seq(|matches|, k requires 0 <= k < |matches| => OutcomeOf(matches[k], source, target, scheduled))
  }

  function PairsOf(outcomes: seq<Outcome>): seq<MatchPair> {
    if outcomes == [] then []
    else
      var last := outcomes[|outcomes| - 1];
      PairsOf(outcomes[..|outcomes| - 1]) + (if last.Paired? then [last.pair] else [])
  }

  function UnresolvedOf(matches: seq<FunctionMatch>, outcomes: seq<Outcome>): seq<FunctionMatch>
    requires |matches| == |outcomes|
  {
    if matches == [] then []
    else
      var n := |matches| - 1;
      UnresolvedOf(matches[..n], outcomes[..n]) + (if outcomes[n].Unresolved? then [matches[n]] else [])
  }

  lemma OutcomesStep(matches: seq<FunctionMatch>, n: nat, source: Index, target: Index, scheduled: set<int>)
    requires n < |matches|
    ensures var now, next := Outcomes(matches[..n], source, target, scheduled),
                             Outcomes(matches[..n + 1], source, target, scheduled);
            var last := OutcomeOf(matches[n], source, target, scheduled);
            && PairsOf(next) == PairsOf(now) + (if last.Paired? then [last.pair] else [])
            && UnresolvedOf(matches[..n + 1], next)
               == UnresolvedOf(matches[..n], now) + (if last.Unresolved? then [matches[n]] else [])
  {
    var next := Outcomes(matches[..n + 1], source, target, scheduled);
    assert next[..n] == Outcomes(matches[..n], source, target, scheduled);
    assert matches[..n + 1][..n] == matches[..n];
  }

  method PairMatches(matches: seq<FunctionMatch>, source: Index, target: Index, scheduled: set<int>)
    returns (paired: seq<MatchPair>, unresolved: seq<FunctionMatch>)
    ensures paired == PairsOf(Outcomes(matches, source, target, scheduled))
    ensures unresolved == UnresolvedOf(matches, Outcomes(matches, source, target, scheduled))
  {
    paired, unresolved := [], [];
    assert matches[..|matches|] == matches;
    for n := 0 to |matches|
      invariant paired == PairsOf(Outcomes(matches[..n], source, target, scheduled))
      invariant unresolved == UnresolvedOf(matches[..n], Outcomes(matches[..n], source, target, scheduled))
    {
      OutcomesStep(matches, n, source, target, scheduled);
      hide PairsOf, UnresolvedOf, Outcomes, Lookup;
      assert paired + [] == paired && unresolved + [] == unresolved;
      var m := matches[n];
      if m.targetOffset.None? {
        unresolved := unresolved + [m];
        continue;
      }
      var s := LookupEntity(source, m.sourceOffset);
      var t := LookupEntity(target, m.targetOffset.value);
      if s.None? || t.None? {
        unresolved := unresolved + [m];
        continue;
      }
      if s.value.id !in scheduled {
        continue;
      }
      paired := paired + [
        MatchPair(s.value.id, t.value.id, if m.IsPicHash() then 255 else Scoring.SimilarityFromMinhash(m.score),
                  m.Confidence(), m.sourceOffset, m.targetOffset.value, m.score, m.flags)];
    }
  }

  /** `at` lists, in order, exactly the positions whose outcome is `chosen`. */
  ghost predicate Positions(at: seq<nat>, outcomes: seq<Outcome>, chosen: Outcome -> bool) {
    && (forall i, j :: 0 <= i < j < |at| ==> at[i] < at[j])
    && (forall i :: 0 <= i < |at| ==> at[i] < |outcomes|)
    && (forall k: nat :: k < |outcomes| ==> (k in at <==> chosen(outcomes[k])))
  }

  lemma PositionsAppend(at: seq<nat>, outcomes: seq<Outcome>, chosen: Outcome -> bool)
    requires outcomes != [] && Positions(at, outcomes[..|outcomes| - 1], chosen)
    ensures var n := |outcomes| - 1; Positions(if chosen(outcomes[n]) then at + [n] else at, outcomes, chosen)
  {
    var n := |outcomes| - 1;
    assert forall k: nat :: k < n ==> outcomes[..n][k] == outcomes[k];
    assert n !in at;
    assert forall k: nat :: k in at + [n] <==> k in at || k == n;
  }

  predicate IsPaired(o: Outcome) {
    o.Paired?
  }

  predicate IsUnresolved(o: Outcome) {
    o.Unresolved?
  }

  lemma {:induction false} PairPositions(outcomes: seq<Outcome>) returns (at: seq<nat>)
    ensures Positions(at, outcomes, IsPaired) && |PairsOf(outcomes)| == |at|
    ensures forall i :: 0 <= i < |at| ==> at[i] < |outcomes| && outcomes[at[i]] == Paired(PairsOf(outcomes)[i])
  {
    if outcomes == [] {
      at := [];
    } else {
      var n := |outcomes| - 1;
      var before := PairPositions(outcomes[..n]);
      var pairs := PairsOf(outcomes[..n]);
      assert PairsOf(outcomes) == pairs + (if IsPaired(outcomes[n]) then [outcomes[n].pair] else []);
      hide Positions, PairsOf;
      PositionsAppend(before, outcomes, IsPaired);
      forall i | 0 <= i < |before| ensures before[i] < n && outcomes[before[i]] == Paired(pairs[i]) {
        assert outcomes[..n][before[i]] == Paired(pairs[i]);
      }
      at := if IsPaired(outcomes[n]) then before + [n] else before;
    }
  }

  lemma {:induction false} UnresolvedPositions(matches: seq<FunctionMatch>, outcomes: seq<Outcome>)
    returns (at: seq<nat>)
    requires |matches| == |outcomes|
    ensures Positions(at, outcomes, IsUnresolved) && |UnresolvedOf(matches, outcomes)| == |at|
    ensures forall i :: 0 <= i < |at| ==> at[i] < |matches| && UnresolvedOf(matches, outcomes)[i] == matches[at[i]]
  {
    if outcomes == [] {
      at := [];
    } else {
      var n := |outcomes| - 1;
      var before := UnresolvedPositions(matches[..n], outcomes[..n]);
      var part := UnresolvedOf(matches[..n], outcomes[..n]);
      assert UnresolvedOf(matches, outcomes) == part + (if IsUnresolved(outcomes[n]) then [matches[n]] else []);
      assert forall i :: 0 <= i < |before| ==> before[i] < n && part[i] == matches[before[i]];
      hide Positions, UnresolvedOf;
      PositionsAppend(before, outcomes, IsUnresolved);
      at := if IsUnresolved(outcomes[n]) then before + [n] else before;
    }
  }

  /** Paired, unresolved and unscheduled matches partition the matches, each part in the order of the matches. */
  lemma PairingPartitions(matches: seq<FunctionMatch>, outcomes: seq<Outcome>) returns (p: seq<nat>, u: seq<nat>)
    requires |matches| == |outcomes|
    ensures Positions(p, outcomes, IsPaired) && Positions(u, outcomes, IsUnresolved)
    ensures |PairsOf(outcomes)| == |p| && |UnresolvedOf(matches, outcomes)| == |u|
    ensures forall i :: 0 <= i < |p| ==> p[i] < |matches| && outcomes[p[i]] == Paired(PairsOf(outcomes)[i])
    ensures forall i :: 0 <= i < |u| ==> u[i] < |matches| && UnresolvedOf(matches, outcomes)[i] == matches[u[i]]
  {
    hide *;
    p := PairPositions(outcomes);
    u := UnresolvedPositions(matches, outcomes);
  }

  /**
   * Once match-only entities are made, a match stays unresolved exactly when it has no target offset, no source
   * entity, or neither a target entity nor a function in the target view.
   */
  lemma UnresolvedIffAbsent(
    sources: seq<Entity>, targets: seq<Entity>, matches: seq<FunctionMatch>, target: Target, n: nat,
    scheduled: set<int>, k: nat)
    requires k < |matches|
    ensures var m := matches[k];
            var grown := Extended(Indexed(targets), Created(Indexed(targets), matches, target, n));
            OutcomeOf(m, Indexed(sources), grown, scheduled).Unresolved?
            <==> m.targetOffset.None? || Scan(sources, m.sourceOffset).None?
                 || (Scan(targets, m.targetOffset.value).None? && !target.InView(m.targetOffset.value))
  {
    var m := matches[k];
    LookupIsScan(sources, m.sourceOffset);
    if m.targetOffset.Some? {
      var offset := m.targetOffset.value;
      var index := Indexed(targets);
      LookupIsScan(targets, offset);
      if Lookup(index, offset).Some? {
        CreatedAreFresh(index, matches, target, n);
        GrowthKeepsLookups(index, Created(index, matches, target, n), offset);
      } else if target.InView(offset) {
        GrowthIsComplete(index, matches, target, n, k);
      } else {
        GrowthIsLocal(index, matches, target, n, offset);
      }
    }
  }

  /** A match is paired exactly if a scheduled source entity and a target entity are found, and the pair says which. */
  lemma PairedIffFound(
    sources: seq<Entity>, target: Index, m: FunctionMatch, scheduled: set<int>, pair: MatchPair)
    ensures OutcomeOf(m, Indexed(sources), target, scheduled) == Paired(pair)
            <==> && m.targetOffset == Some(pair.targetOffset) && m.sourceOffset == pair.sourceOffset
                 && Scan(sources, pair.sourceOffset).Some? && Lookup(target, pair.targetOffset).Some?
                 && pair.sourceEntity == Scan(sources, pair.sourceOffset).value.id
                 && pair.targetEntity == Lookup(target, pair.targetOffset).value.id
                 && pair.sourceEntity in scheduled
                 && pair.similarity == (if m.IsPicHash() then 255 else Scoring.SimilarityFromMinhash(m.score))
                 && pair.confidence == m.Confidence() && pair.score == m.score && pair.flags == m.flags
  {
    LookupIsScan(sources, m.sourceOffset);
    hide Scan, Lookup, Indexed;
  }
}

/** URiseResourceComponent: a resource node whose remaining amount gatherers
    draw from. The remaining amount is declared as a float but only ever
    changes by whole numbers, so it is an integer here; the multiplier is a
    real. The delegates it broadcasts and the destruction of its owner are
    recorded in a ghost event log. */
module Resource {
  import opened Common

  datatype ResourceEvent =
    | Gathered(gatherer: ActorId, source: ActorId, amount: int)
    | Depleted(source: ActorId)
    | OwnerDestroyed(source: ActorId)

  /** FMath::Clamp(desired, 0, desired): a negative request counts as zero. */
  function ClampedRequest(desired: int): (r: int)
    ensures r >= 0
    ensures desired >= 0 ==> r == desired
    ensures desired < 0 ==> r == 0
  {
    ClampInt(desired, 0, desired)
  }

  /** The amount one Extract hands out: the floor of the clamped request times
      the multiplier, capped by what is left. */
  function ExtractAmount(desired: int, multiplier: real, current: int): (r: int)
    ensures r <= current
    ensures multiplier >= 0.0 && current >= 0 ==> r >= 0
    ensures r as real <= ClampedRequest(desired) as real * multiplier
    ensures r == current || r == (ClampedRequest(desired) as real * multiplier).Floor
  {
    var scaled := (ClampedRequest(desired) as real * multiplier).Floor;
    if scaled < current then scaled else current
  }

  /** The total handed out by a series of Extract calls on a node holding
      `current`, and what is left afterwards. */
  function ExtractSeries(desired: seq<int>, multiplier: real, current: int): (r: (int, int))
    decreases |desired|
  {
    if desired == [] then (0, current)
    else
      var amount := ExtractAmount(desired[0], multiplier, current);
      var rest := ExtractSeries(desired[1..], multiplier, current - amount);
      (amount + rest.0, rest.1)
  }

  /** Conservation: whatever the multiplier and the requests, what is handed
      out plus what is left is what the node held, and with a non-negative
      multiplier the node never hands out more than it held nor drops below
      zero. */
  lemma {:induction false} ExtractSeriesConserves(desired: seq<int>, multiplier: real, current: int)
    ensures ExtractSeries(desired, multiplier, current).0 + ExtractSeries(desired, multiplier, current).1 == current
    ensures multiplier >= 0.0 && current >= 0 ==>
      0 <= ExtractSeries(desired, multiplier, current).0 <= current &&
      ExtractSeries(desired, multiplier, current).1 >= 0
    decreases |desired|
  {
    if desired != [] {
      var amount := ExtractAmount(desired[0], multiplier, current);
      ExtractSeriesConserves(desired[1..], multiplier, current - amount);
    }
  }

  /** With a multiplier of 1 a request that fits is granted in full. */
  lemma FullRequestWithUnitMultiplier(desired: int, current: int)
    requires 0 <= desired <= current
    ensures ExtractAmount(desired, 1.0, current) == desired
  {
    assert (desired as real * 1.0).Floor == desired;
  }

  class ResourceComponent {
    /** GetOwner(): the resource node actor. */
    const owner: ActorId
    /** MaxResourceAmount (int32, at least 0 in the editor). */
    const maxResourceAmount: int
    /** ResourceMultiplier (at least 0 in the editor). */
    const resourceMultiplier: real
    var currentResourceAmount: int
    ghost var events: seq<ResourceEvent>

    /** The defaults: 100 of 100, multiplier 1. */
    constructor (inOwner: ActorId)
      ensures owner == inOwner && events == []
      ensures GetCurrentResourceAmount() == 100 && GetMaxResourceAmount() == 100
      ensures resourceMultiplier == 1.0
    {
      owner := inOwner;
      currentResourceAmount := 100;
      maxResourceAmount := 100;
      resourceMultiplier := 1.0;
      events := [];
    }

    /** A node whose maximum and multiplier were edited: the current amount
        is set by the constructor before the edit, so it stays 100 whatever
        the maximum. */
    constructor Configured(inOwner: ActorId, inMax: int, inMultiplier: real)
      requires inMax >= 0 && inMultiplier >= 0.0
      ensures owner == inOwner && events == []
      ensures GetCurrentResourceAmount() == 100 && GetMaxResourceAmount() == inMax
      ensures resourceMultiplier == inMultiplier
    {
      owner := inOwner;
      currentResourceAmount := 100;
      maxResourceAmount := inMax;
      resourceMultiplier := inMultiplier;
      events := [];
    }

    function GetMaxResourceAmount(): (r: int)
      ensures r == maxResourceAmount
    {
      maxResourceAmount
    }

    function GetCurrentResourceAmount(): (r: int)
      reads this
      ensures r == currentResourceAmount
    {
      currentResourceAmount
    }

    /** A null gatherer gets nothing and nothing happens. Otherwise the
        amount ExtractAmount computes is taken from the node and returned,
        OnResourceGathered is broadcast, and a node left at zero or below
        broadcasts OnResourceDepleted and destroys its owner. */
    method Extract(gatherer: Option<ActorId>, desired: int) returns (extracted: int)
      modifies this`currentResourceAmount, this`events
      ensures gatherer.None? ==>
        extracted == 0 && currentResourceAmount == old(currentResourceAmount) && events == old(events)
      ensures gatherer.Some? ==>
        extracted == ExtractAmount(desired, resourceMultiplier, old(currentResourceAmount)) &&
        currentResourceAmount == old(currentResourceAmount) - extracted
      ensures resourceMultiplier >= 0.0 && old(currentResourceAmount) >= 0 ==>
        0 <= extracted <= old(currentResourceAmount) && currentResourceAmount >= 0
      ensures gatherer.Some? && currentResourceAmount > 0 ==>
        events == old(events) + [Gathered(gatherer.value, owner, extracted)]
      ensures gatherer.Some? && currentResourceAmount <= 0 ==>
        events == old(events) + [Gathered(gatherer.value, owner, extracted), Depleted(owner), OwnerDestroyed(owner)]
    {
      if gatherer.None? {
        return 0;
      }
      var modified := (ClampInt(desired, 0, desired) as real * resourceMultiplier).Floor;
      modified := if modified < currentResourceAmount then modified else currentResourceAmount;
      currentResourceAmount := currentResourceAmount - modified;
      events := events + [Gathered(gatherer.value, owner, modified)];
      if currentResourceAmount <= 0 {
        events := events + [Depleted(owner)];
        events := events + [OwnerDestroyed(owner)];
      }
      return modified;
    }

    /** The default implementation lets every gatherer gather. */
    function CanGatherFromNode(gatherer: ActorId): (r: bool)
      ensures r
    {
      true
    }
  }
}

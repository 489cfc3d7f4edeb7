/** The coordinator of local resources: owners take whole sets of resources or none, and no resource
    is ever held by more owners than it has capacity for. */
module ResourceCoordinator {
  import opened Outcomes
  import opened Sorting
  import opened Keys

  datatype Lease = Lease(owner: string, resources: seq<string>)

  type Leases = map<string, Lease>
  type Capacities = map<string, nat>

  datatype Call = Acquire(owner: string, resources: seq<string>) | Release(holder: string)

  /** The owners of one resource. */
  ghost function Holders(leases: Leases, resource: string): set<string> {
    set o | o in leases && resource in leases[o].resources
  }

  ghost predicate Spare(capacities: Capacities, leases: Leases, resource: string) {
    resource in capacities && |Holders(leases, resource)| < capacities[resource]
  }

  /** A request names known resources, each once, and at least one. */
  ghost predicate Requestable(capacities: Capacities, resources: seq<string>) {
    resources != [] && Distinct(resources) && forall r | r in resources :: r in capacities
  }

  /** A new owner needs every resource to have room; an owner may only repeat its own request. */
  ghost predicate Grantable(capacities: Capacities, leases: Leases, owner: string, resources: seq<string>) {
    Requestable(capacities, resources) &&
    if owner in leases then multiset(resources) == multiset(leases[owner].resources)
    else forall r | r in resources :: Spare(capacities, leases, r)
  }

  /** Why a request that cannot be granted is refused. */
  ghost function RefusalCode(capacities: Capacities, leases: Leases, owner: string, resources: seq<string>): string {
    if resources == [] || !Distinct(resources) then "resource_request_invalid"
    else if !Requestable(capacities, resources) then "resource_unknown"
    else if owner in leases then "resource_owner_conflict"
    else "resource_unavailable"
  }

  ghost function LeaseFor(owner: string, resources: seq<string>): Lease {
    Lease(owner, Sort(resources, TextLe))
  }

  /** The leases after one call; a refused call leaves them as they are. */
  ghost function After(capacities: Capacities, leases: Leases, call: Call): Leases {
    match call
    case Acquire(owner, resources) =>
      if Grantable(capacities, leases, owner, resources) then leases[owner := LeaseFor(owner, resources)] else leases
    case Release(owner) => leases - {owner}
  }

  ghost function AfterAll(capacities: Capacities, leases: Leases, calls: seq<Call>): Leases
    decreases |calls|
  {
    if calls == [] then leases else AfterAll(capacities, After(capacities, leases, calls[0]), calls[1..])
  }

  // ---------------------------------------------------------------- what every state keeps

  ghost predicate WellFormed(capacities: Capacities, leases: Leases) {
    forall o | o in leases ::
      && leases[o].owner == o && Requestable(capacities, leases[o].resources)
      && leases[o].resources == Sort(leases[o].resources, TextLe)
  }

  /** No resource is held beyond its capacity. */
  ghost predicate Within(capacities: Capacities, leases: Leases) {
    forall r | r in capacities :: |Holders(leases, r)| <= capacities[r]
  }

  lemma SortedRequest(resources: seq<string>)
    ensures multiset(Sort(resources, TextLe)) == multiset(resources)
    ensures forall r :: r in Sort(resources, TextLe) <==> r in resources
    ensures Distinct(Sort(resources, TextLe)) <==> Distinct(resources)
    ensures Sort(Sort(resources, TextLe), TextLe) == Sort(resources, TextLe)
    ensures |Sort(resources, TextLe)| == |resources|
  {
    TextOrder();
    SortPermutes(resources, TextLe);
    MemberOfPermutation(Sort(resources, TextLe), resources);
    DistinctIsMultiset(resources);
    DistinctIsMultiset(Sort(resources, TextLe));
    SameRequestSorts(Sort(resources, TextLe), resources);
  }

  /** Two requests sort alike exactly when they name the same resources. */
  lemma SameRequestSorts(a: seq<string>, b: seq<string>)
    ensures Sort(a, TextLe) == Sort(b, TextLe) <==> multiset(a) == multiset(b)
  {
    TextOrder();
    SortPermutes(a, TextLe);
    SortPermutes(b, TextLe);
    if multiset(a) == multiset(b) {
      SortOfPermutation(a, b, TextLe);
    }
  }

  /** One more lease adds its owner to the holders of what it names. */
  lemma HoldersGrow(leases: Leases, owner: string, resources: seq<string>, r: string)
    requires owner !in leases
    ensures Holders(leases[owner := LeaseFor(owner, resources)], r) ==
            if r in resources then Holders(leases, r) + {owner} else Holders(leases, r)
    ensures owner !in Holders(leases, r)
  {
    SortedRequest(resources);
  }

  /** Repeating one's own request changes nothing. */
  lemma RepeatChangesNothing(capacities: Capacities, leases: Leases, owner: string, resources: seq<string>)
    requires WellFormed(capacities, leases) && owner in leases
    ensures Grantable(capacities, leases, owner, resources) <==>
              multiset(resources) == multiset(leases[owner].resources)
    ensures After(capacities, leases, Acquire(owner, resources)) == leases
  {
    if multiset(resources) == multiset(leases[owner].resources) {
      var held := leases[owner].resources;
      SameRequestSorts(resources, held);
      DistinctIsMultiset(resources);
      DistinctIsMultiset(held);
      MemberOfPermutation(resources, held);
      assert LeaseFor(owner, resources) == leases[owner];
    }
  }

  /** A request of a new owner is granted exactly when it is a proper request and the capacities still hold with
      it: none that fits is refused. */
  lemma GrantedIffItFits(capacities: Capacities, leases: Leases, owner: string, resources: seq<string>)
    requires WellFormed(capacities, leases) && Within(capacities, leases) && owner !in leases
    ensures Grantable(capacities, leases, owner, resources) <==>
              Requestable(capacities, resources)
              && Within(capacities, leases[owner := LeaseFor(owner, resources)])
  {
    var granted := leases[owner := LeaseFor(owner, resources)];
    forall r ensures |Holders(granted, r)| == |Holders(leases, r)| + (if r in resources then 1 else 0) {
      HoldersGrow(leases, owner, resources, r);
    }
  }

  lemma AfterKeeps(capacities: Capacities, leases: Leases, call: Call)
    requires WellFormed(capacities, leases) && Within(capacities, leases)
    ensures WellFormed(capacities, After(capacities, leases, call))
            && Within(capacities, After(capacities, leases, call))
  {
    var after := After(capacities, leases, call);
    match call {
      case Acquire(owner, resources) =>
        if owner in leases {
          RepeatChangesNothing(capacities, leases, owner, resources);
        } else if Grantable(capacities, leases, owner, resources) {
          SortedRequest(resources);
          forall r | r in capacities ensures |Holders(after, r)| <= capacities[r] {
            HoldersGrow(leases, owner, resources, r);
            if r in resources { assert Spare(capacities, leases, r); }
          }
        }
      case Release(owner) =>
        forall r | r in capacities ensures |Holders(after, r)| <= capacities[r] {
          assert Holders(after, r) == Holders(leases, r) - {owner};
        }
    }
  }

  /** Over any sequence of calls, refused ones included, no capacity is ever exceeded. */
  lemma {:induction false} NeverBeyondCapacity(capacities: Capacities, leases: Leases, calls: seq<Call>)
    requires WellFormed(capacities, leases) && Within(capacities, leases)
    ensures WellFormed(capacities, AfterAll(capacities, leases, calls))
    ensures Within(capacities, AfterAll(capacities, leases, calls))
    decreases |calls|
  {
    if calls != [] {
      AfterKeeps(capacities, leases, calls[0]);
      NeverBeyondCapacity(capacities, After(capacities, leases, calls[0]), calls[1..]);
    }
  }

  /** Releasing what was just acquired restores every lease. */
  lemma ReleaseUndoesAcquire(capacities: Capacities, leases: Leases, owner: string, resources: seq<string>)
    requires owner !in leases
    ensures AfterAll(capacities, leases, [Acquire(owner, resources), Release(owner)]) == leases
  {
    var calls := [Acquire(owner, resources), Release(owner)];
    assert calls[1..] == [Release(owner)] && calls[1..][1..] == [];
    assert AfterAll(capacities, After(capacities, leases, calls[0]), calls[1..]) ==
           AfterAll(capacities, After(capacities, After(capacities, leases, calls[0]), Release(owner)), []);
  }

  /** The calls of other owners between them do not matter to the owner's own lease. */
  lemma {:induction false} OthersLeaveMyLease(capacities: Capacities, leases: Leases, calls: seq<Call>, owner: string)
    requires forall c | c in calls :: (if c.Acquire? then c.owner else c.holder) != owner
    ensures owner in AfterAll(capacities, leases, calls) <==> owner in leases
    ensures owner in leases ==> AfterAll(capacities, leases, calls)[owner] == leases[owner]
    decreases |calls|
  {
    if calls != [] {
      assert calls[0] in calls;
      OthersLeaveMyLease(capacities, After(capacities, leases, calls[0]), calls[1..], owner);
    }
  }

  /** When a holder of a full resource releases it, there is room again. */
  lemma ReleaseMakesRoom(capacities: Capacities, leases: Leases, owner: string, resource: string)
    requires Within(capacities, leases) && resource in capacities && owner in Holders(leases, resource)
    ensures Spare(capacities, After(capacities, leases, Release(owner)), resource)
  {
    assert Holders(leases - {owner}, resource) == Holders(leases, resource) - {owner};
  }

  // ---------------------------------------------------------------- counting usage

  /** The count of each resource is the number of its owners. */
  ghost predicate Tallies(capacities: Capacities, usage: map<string, nat>, leases: Leases) {
    usage.Keys == capacities.Keys && forall k | k in usage :: usage[k] == |Holders(leases, k)|
  }

  /** Each resource of a list counted once more. */
  ghost predicate Increased(before: map<string, nat>, more: map<string, nat>, counted: seq<string>) {
    more.Keys == before.Keys && forall k | k in more :: more[k] == before[k] + (if k in counted then 1 else 0)
  }

  lemma IncreaseOnce(before: map<string, nat>, more: map<string, nat>, resources: seq<string>, n: nat)
    requires Distinct(resources) && n < |resources| && resources[n] in before && Increased(before, more, resources[..n])
    ensures Increased(before, more[resources[n] := more[resources[n]] + 1], resources[..n + 1])
  {
    assert resources[..n + 1] == resources[..n] + [resources[n]];
    assert resources[n] !in resources[..n];
  }

  lemma TallyLease(capacities: Capacities, before: map<string, nat>, more: map<string, nat>, seen: Leases, lease: Lease)
    requires lease.owner !in seen && Tallies(capacities, before, seen) && Increased(before, more, lease.resources)
    ensures Tallies(capacities, more, seen[lease.owner := lease])
  {
    forall k | k in more ensures more[k] == |Holders(seen[lease.owner := lease], k)| {
      assert lease.owner !in Holders(seen, k);
      assert Holders(seen[lease.owner := lease], k) ==
             if k in lease.resources then Holders(seen, k) + {lease.owner} else Holders(seen, k);
    }
  }

  // ---------------------------------------------------------------- the coordinator itself

  /** Capacities are given, and each is positive. */
  method MakeCoordinator(capacities: map<string, int>) returns (r: Result<SerializedResourceCoordinator>)
    ensures r.Ok? <==> capacities != map[] && forall k | k in capacities :: capacities[k] >= 1
    ensures r.Err? ==> r.code == "resource_capacities_invalid"
    ensures r.Ok? ==> fresh(r.value) && r.value.Valid() && r.value.leases == map[] && r.value.capacities == capacities
  {
    if capacities == map[] || exists k | k in capacities :: capacities[k] < 1 {
      return Err("resource_capacities_invalid");
    }
    var normalized: Capacities := map k | k in capacities :: capacities[k];
    var coordinator := new SerializedResourceCoordinator(normalized);
    return Ok(coordinator);
  }

  class SerializedResourceCoordinator {
    const capacities: Capacities
    var leases: Leases

    ghost predicate Valid() reads this {
      WellFormed(capacities, leases) && Within(capacities, leases)
    }

    constructor (capacities: Capacities)
      ensures Valid() && this.capacities == capacities && leases == map[]
    {
      this.capacities := capacities;
      leases := map[];
      new;
      assert forall r :: Holders(leases, r) == {};
    }

    /** Grants all of a request or none of it. */
    method Acquire(owner: string, resources: seq<string>) returns (r: Result<Lease>)
      requires Valid()
      modifies this
      ensures Valid()
      ensures leases == After(capacities, old(leases), Call.Acquire(owner, resources))
      ensures r.Ok? <==> Grantable(capacities, old(leases), owner, resources)
      ensures r.Ok? ==> leases == old(leases)[owner := r.value] && r.value.owner == owner
      ensures r.Ok? ==> multiset(r.value.resources) == multiset(resources) && Sorted(r.value.resources, TextLe)
      ensures r.Err? ==> r.code == RefusalCode(capacities, old(leases), owner, resources)
    {
      var requested := Sort(resources, TextLe);
      SortedRequest(resources);
      TextOrder();
      SortSorted(resources, TextLe);
      AfterKeeps(capacities, leases, Call.Acquire(owner, resources));
      if requested == [] || !Distinct(requested) {
        return Err("resource_request_invalid");
      }
      if exists k | k in requested :: k !in capacities {
        return Err("resource_unknown");
      }
      if owner in leases {
        RepeatChangesNothing(capacities, leases, owner, resources);
        SameRequestSorts(resources, leases[owner].resources);
        if leases[owner].resources != requested {
          return Err("resource_owner_conflict");
        }
        return Ok(leases[owner]);
      }
      var usage := CountUsage();
      if exists k | k in requested :: usage[k] >= capacities[k] {
        return Err("resource_unavailable");
      }
      var lease := Lease(owner, requested);
      leases := leases[owner := lease];
      return Ok(lease);
    }

    /** How many owners hold each resource, by walking every lease. */
    method CountUsage() returns (usage: map<string, nat>)
      requires Valid()
      ensures Tallies(capacities, usage, leases)
    {
      usage := map k | k in capacities :: 0;
      var pending := leases.Keys;
      ghost var seen := map[];
      while pending != {}
        invariant pending <= leases.Keys && seen == leases - pending
        invariant Tallies(capacities, usage, seen)
      {
        var o :| o in pending;
        usage := AddLease(usage, leases[o], seen);
        seen := seen[o := leases[o]];
        pending := pending - {o};
      }
      assert seen == leases;
    }

    method AddLease(usage: map<string, nat>, lease: Lease, ghost seen: Leases) returns (more: map<string, nat>)
      requires lease.owner !in seen && Requestable(capacities, lease.resources) && Tallies(capacities, usage, seen)
      ensures Tallies(capacities, more, seen[lease.owner := lease])
    {
      more := usage;
      for n := 0 to |lease.resources|
        invariant Increased(usage, more, lease.resources[..n])
      {
        var resource := lease.resources[n];
        IncreaseOnce(usage, more, lease.resources, n);
        more := more[resource := more[resource] + 1];
      }
      assert lease.resources[..|lease.resources|] == lease.resources;
      TallyLease(capacities, usage, more, seen, lease);
    }

    method Release(owner: string) returns (r: Result<Lease>)
      requires Valid()
      modifies this
      ensures Valid()
      ensures leases == After(capacities, old(leases), Call.Release(owner))
      ensures r == if owner in old(leases) then Ok(old(leases)[owner]) else Err("resource_lease_missing")
    {
      AfterKeeps(capacities, leases, Call.Release(owner));
      if owner !in leases {
        assert leases - {owner} == leases;
        return Err("resource_lease_missing");
      }
      r := Ok(leases[owner]);
      leases := leases - {owner};
    }
  }
}

/**
 How the API follows a run that a worker executes: it reads the stored events, and between two
 reads it waits for a signal that carries no data. The signal keeps one shared, mutable set of
 resolvers per run, so a late `stop` must not touch the set that replaced its own.
 */
module RunSignal {

  type RunId = string

  class ResolverSet {
    var members: set<nat>

    constructor ()
      ensures members == {}
    {
      members := {};
    }
  }

  datatype Subscription = Subscription(run: RunId, resolvers: ResolverSet, resolver: nat)

  class Signal {
    var waiting: map<RunId, ResolverSet>
    /** The resolvers that have been called. */
    var woken: set<nat>
    var next: nat

    /** Every subscription there ever was, by its resolver, and the resolvers that still wait. */
    ghost var all: seq<Subscription>
    ghost var live: set<nat>
    ghost var sets: set<ResolverSet>

    ghost predicate Valid()
      reads this, sets
    {
      && Known()
      && (forall run :: run in waiting ==> waiting[run] in sets && waiting[run].members != {})
      && (forall run, id: nat :: run in waiting && id in waiting[run].members ==> WaitsFor(id, run))
      && (forall id: nat :: id in live ==> WaitsReachably(id))
    }

    ghost predicate Known()
      reads this
    {
      && |all| == next
      && (forall id: nat :: id < |all| ==> all[id].resolver == id && all[id].resolvers in sets)
      && (forall id: nat :: id in woken ==> id < |all| && id !in live)
    }

    ghost predicate WaitsFor(id: nat, run: RunId)
      reads this
    {
      id in live && id < |all| && all[id].run == run
    }

    ghost predicate WaitsReachably(id: nat)
      reads this, sets
    {
      id < |all| && all[id].resolvers in sets && Reachable(all[id])
    }

    /** The next `Notify` for the run of this subscription wakes it. */
    ghost predicate Reachable(s: Subscription)
      reads this, s.resolvers
    {
      s.run in waiting && waiting[s.run] == s.resolvers && s.resolver in s.resolvers.members
    }

    constructor ()
      ensures Valid() && live == {} && woken == {} && sets == {}
    {
      waiting, woken, next := map[], {}, 0;
      all, sets, live := [], {}, {};
    }

    /** Wakes everyone who waits for the run. */
    method Notify(run: RunId)
      requires Valid()
      modifies this
      ensures Valid() && sets == old(sets) && all == old(all)
      ensures forall id: nat :: id in woken <==> id in old(woken) || (id in old(live) && all[id].run == run)
      ensures forall id: nat :: id in live <==> id in old(live) && all[id].run != run
    {
      if run !in waiting {
        forall id: nat | id in live ensures all[id].run != run { assert WaitsReachably(id); }
        return;
      }
      var resolvers := waiting[run];
      forall id: nat ensures id in resolvers.members <==> id in live && all[id].run == run {
        if id in live { assert WaitsReachably(id); }
        if id in resolvers.members { assert WaitsFor(id, run); }
      }
      waiting := waiting - {run};
      woken := woken + resolvers.members;
      live := live - resolvers.members;
    }

    method Subscribe(run: RunId) returns (subscription: Subscription)
      requires Valid()
      modifies this, sets
      ensures Valid() && old(sets) <= sets && fresh(sets - old(sets)) && woken == old(woken)
      ensures subscription.run == run && subscription.resolver == |old(all)|
      ensures all == old(all) + [subscription] && live == old(live) + {subscription.resolver}
    {
      var resolvers := SetOf(run);
      subscription := Join(run, resolvers);
    }

    /** The set of the run, or a new one. */
    method SetOf(run: RunId) returns (resolvers: ResolverSet)
      requires Valid()
      modifies this`sets
      ensures Valid() && old(sets) <= sets && fresh(sets - old(sets)) && resolvers in sets
      ensures if run in waiting then resolvers == waiting[run]
              else fresh(resolvers) && resolvers.members == {}
      ensures forall q :: q in waiting && q != run ==> waiting[q] != resolvers
    {
      if run in waiting {
        resolvers := waiting[run];
        forall q | q in waiting && q != run ensures waiting[q] != resolvers {
          var member :| member in waiting[q].members;
          assert WaitsFor(member, q);
        }
      } else {
        resolvers := new ResolverSet();
        sets := sets + {resolvers};
      }
    }

    method Join(run: RunId, resolvers: ResolverSet) returns (subscription: Subscription)
      requires Valid() && resolvers in sets
      requires if run in waiting then resolvers == waiting[run] else resolvers.members == {}
      requires forall q :: q in waiting && q != run ==> waiting[q] != resolvers
      modifies this, resolvers
      ensures Valid() && sets == old(sets) && woken == old(woken)
      ensures subscription == Subscription(run, resolvers, |old(all)|)
      ensures all == old(all) + [subscription] && live == old(live) + {subscription.resolver}
    {
      hide WaitsFor, WaitsReachably, Known;
      subscription := Subscription(run, resolvers, next);
      JoinsNew();
      next := next + 1;
      waiting := waiting[run := resolvers];
      resolvers.members := resolvers.members + {subscription.resolver};
      all, live := all + [subscription], live + {subscription.resolver};
      JoinedWaits(subscription);
      JoinedIsReachable(subscription);
      JoinedIsKnown(subscription);
    }

    lemma JoinsNew()
      requires Valid()
      ensures |all| == next
    {
    }

    twostate lemma JoinedIsKnown(s: Subscription)
      requires old(Valid()) && Joined(s) && woken == old(woken)
      ensures Known()
    {
    }

    twostate predicate Joined(s: Subscription)
      reads this, sets
    {
      && s.resolver == |old(all)| && all == old(all) + [s] && next == old(next) + 1 && live == old(live) + {s.resolver}
      && sets == old(sets) && s.resolvers in sets && waiting == old(waiting)[s.run := s.resolvers]
      && s.resolvers.members == old(s.resolvers.members) + {s.resolver}
      && forall r :: r in sets && r != s.resolvers ==> r.members == old(r.members)
    }

    twostate lemma JoinedWaits(s: Subscription)
      requires old(Valid()) && Joined(s)
      requires if s.run in old(waiting) then s.resolvers == old(waiting)[s.run] else old(s.resolvers.members) == {}
      requires forall q :: q in old(waiting) && q != s.run ==> old(waiting)[q] != s.resolvers
      ensures forall q, id: nat :: q in waiting && id in waiting[q].members ==> WaitsFor(id, q)
    {
      forall q, id: nat | q in waiting && id in waiting[q].members ensures WaitsFor(id, q) {
        if id != s.resolver { assert old(WaitsFor(id, q)); }
      }
    }

    twostate lemma JoinedIsReachable(s: Subscription)
      requires old(Valid()) && Joined(s)
      requires s.run in old(waiting) ==> s.resolvers == old(waiting)[s.run]
      ensures forall id: nat :: id in live ==> WaitsReachably(id)
    {
      forall id: nat | id in live ensures WaitsReachably(id) {
        if id != s.resolver { assert old(WaitsReachably(id)); }
      }
    }

    /** Ends one subscription, woken or not, and no other. */
    method Stop(subscription: Subscription)
      requires Valid() && subscription in all
      modifies this, subscription.resolvers
      ensures Valid() && sets == old(sets) && all == old(all) && woken == old(woken)
      ensures live == old(live) - {subscription.resolver}
    {
      var resolvers := subscription.resolvers;
      resolvers.members := resolvers.members - {subscription.resolver};
      live := live - {subscription.resolver};
      if resolvers.members == {} && subscription.run in waiting && waiting[subscription.run] == resolvers {
        waiting := waiting - {subscription.run};
      }
      forall q, id: nat | q in waiting && id in waiting[q].members ensures WaitsFor(id, q) {
        assert old(WaitsFor(id, q)) && old(WaitsReachably(id));
      }
      forall id: nat | id in live ensures WaitsReachably(id) {
        assert old(WaitsReachably(id));
      }
    }
  }
}

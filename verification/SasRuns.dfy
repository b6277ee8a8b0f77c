/** Reconciliation repeated any number of times with any desired sets, each pass interrupted
    anywhere (fabric/sas_install.py, `apply_network`). */
module SasRuns {
  import opened Bytes
  import opened SasInstall

  /** An attempt: a desired set, and how many of its commands took effect. */
  datatype Attempt = Attempt(desired: Spec, cut: nat)

  function Outcome(h: Host, dev: string, fallback: Spec, t: Attempt): Host {
    var previous := Previous(h, fallback);
    var plan := Plan(previous, t.desired);
    if !Clear(h, dev, previous, t.desired) then h
    else Exec(h, dev, plan[..if t.cut < |plan| then t.cut else |plan|])
  }

  /** The attempt gets as far as recording what it is about to do. */
  predicate Begins(h: Host, dev: string, fallback: Spec, t: Attempt) {
    Clear(h, dev, Previous(h, fallback), t.desired) && t.cut > 0
  }

  datatype Ever = Ever(addresses: set<string>, routes: set<Route>)

  /** All that was ever recorded: the start, and what any attempt recorded since. */
  function Noted(ever: Ever, h: Host, dev: string, fallback: Spec, t: Attempt): Ever {
    if Begins(h, dev, fallback, t)
    then Ever(ever.addresses + (set a | a in t.desired.addresses), ever.routes + (set r | r in t.desired.routes))
    else ever
  }

  predicate EverListed(ever: Ever, dev: string, k: RouteKey, hop: Hop) {
    hop.dev == dev && Route(k.dest, k.metric, hop.via) in ever.routes
  }

  /** What is installed: all that was there and never recorded, and nothing else that is
      not in the record. */
  ghost predicate Accounted(h0: Host, ever: Ever, h: Host, dev: string, fallback: Spec) {
    var ledger := Previous(h, fallback);
    && (forall a :: a in ledger.addresses ==> a in ever.addresses)
    && (forall r :: r in ledger.routes ==> r in ever.routes)
    && (forall a :: a in h.addresses ==> (a in h0.addresses && a !in ever.addresses) || a in ledger.addresses)
    && (forall a :: a in h0.addresses && a !in ever.addresses ==> a in h.addresses)
    && (forall k, hop :: Installed(h, k, hop) ==>
        (Installed(h0, k, hop) && !EverListed(ever, dev, k, hop)) || Listed(ledger, dev, k, hop))
    && (forall k, hop :: Installed(h0, k, hop) && !EverListed(ever, dev, k, hop) ==> Installed(h, k, hop))
  }

  /** What every outcome of an attempt looks like to the account. */
  ghost predicate Shifted(h: Host, after: Host, dev: string, previous: Spec, desired: Spec) {
    && after.ledger.Some?
    && (forall a :: a in after.addresses ==>
        (a in h.addresses && a !in previous.addresses) || a in after.ledger.value.addresses)
    && (forall a :: a in h.addresses && a !in previous.addresses ==> a in after.addresses)
    && (forall k, hop :: Installed(after, k, hop) ==>
          (Installed(h, k, hop) && !Listed(previous, dev, k, hop)) || Listed(after.ledger.value, dev, k, hop))
    && (forall k, hop :: Installed(h, k, hop) && !Listed(previous, dev, k, hop) && !Listed(desired, dev, k, hop) ==>
        Installed(after, k, hop))
    && (forall a :: a in desired.addresses ==> a in after.ledger.value.addresses)
    && (forall r :: r in desired.routes ==> r in after.ledger.value.routes)
    && (forall a :: a in after.ledger.value.addresses ==> a in previous.addresses || a in desired.addresses)
    && (forall r :: r in after.ledger.value.routes ==> r in previous.routes || r in desired.routes)
  }

  lemma MidwayShifts(h: Host, after: Host, dev: string, previous: Spec, desired: Spec)
    requires Within(h, after, dev, previous, desired) && !Collides(h, dev, previous, desired)
    ensures Shifted(h, after, dev, previous, desired)
  {
    hide Tracked, Collides;
    TrackedLists(previous, desired);
  }

  lemma AttemptShifts(h: Host, dev: string, fallback: Spec, t: Attempt)
    requires Begins(h, dev, fallback, t) && !Collides(h, dev, Previous(h, fallback), t.desired)
    ensures Shifted(h, Outcome(h, dev, fallback, t), dev, Previous(h, fallback), t.desired)
  {
    hide Plan, Collides, Clear, Within, Shifted;
    var previous := Previous(h, fallback);
    var plan := Plan(previous, t.desired);
    if t.cut < |plan| {
      MidwayWithin(h, dev, previous, t.desired, t.cut);
      MidwayShifts(h, Outcome(h, dev, fallback, t), dev, previous, t.desired);
    } else {
      assert plan[..|plan|] == plan;
      CompletedShifts(h, dev, previous, t.desired);
    }
  }

  lemma CompletedShifts(h: Host, dev: string, previous: Spec, desired: Spec)
    requires Clear(h, dev, previous, desired) && !Collides(h, dev, previous, desired)
    ensures Shifted(h, Exec(h, dev, Plan(previous, desired)), dev, previous, desired)
  {
    hide Plan, Collides, Clear, LeavesExactly;
    CompletedPass(h, dev, previous, desired);
  }

  lemma AttemptAccounted(h0: Host, ever: Ever, h: Host, dev: string, fallback: Spec, t: Attempt)
    requires Accounted(h0, ever, h, dev, fallback) && !Collides(h, dev, Previous(h, fallback), t.desired)
    ensures Accounted(h0, Noted(ever, h, dev, fallback, t), Outcome(h, dev, fallback, t), dev, fallback)
  {
    hide Exec, Plan, Clear, Collides;
    if Begins(h, dev, fallback, t) {
      AttemptShifts(h, dev, fallback, t);
    } else {
      IdleAttempt(h, dev, fallback, t);
    }
  }

  lemma IdleAttempt(h: Host, dev: string, fallback: Spec, t: Attempt)
    requires !Begins(h, dev, fallback, t)
    ensures Outcome(h, dev, fallback, t) == h
  {
    hide Plan, Clear;
    assert Plan(Previous(h, fallback), t.desired)[..0] == [];
  }

  ghost function Repeated(h: Host, dev: string, fallback: Spec, attempts: seq<Attempt>): Host {
    if attempts == [] then h
    else Outcome(Repeated(h, dev, fallback, attempts[..|attempts| - 1]), dev, fallback, attempts[|attempts| - 1])
  }

  ghost function EverNoted(h: Host, dev: string, fallback: Spec, attempts: seq<Attempt>): Ever {
    if attempts == [] then
      Ever(set a | a in Previous(h, fallback).addresses, set r | r in Previous(h, fallback).routes)
    else
      var before := attempts[..|attempts| - 1];
      Noted(EverNoted(h, dev, fallback, before), Repeated(h, dev, fallback, before), dev, fallback,
            attempts[|attempts| - 1])
  }

  /** No route on the device that the record does not name lies under the key of a recorded
      route without a gateway. */
  ghost predicate Unshadowed(h: Host, dev: string, ledger: Spec) {
    forall r :: r in ledger.routes && r.via.None? && KeyOf(r) in h.routes && h.routes[KeyOf(r)].dev == dev ==>
      Listed(ledger, dev, KeyOf(r), h.routes[KeyOf(r)])
  }

  lemma UnshadowedIsSafe(h: Host, dev: string, ledger: Spec, desired: Spec)
    requires Unshadowed(h, dev, ledger)
    ensures !Collides(h, dev, ledger, desired)
  {
  }

  lemma MidwayUnshadowed(h: Host, at: Host, dev: string, previous: Spec, desired: Spec)
    requires Unshadowed(h, dev, previous) && Clear(h, dev, previous, desired) && Within(h, at, dev, previous, desired)
    ensures Unshadowed(at, dev, Tracked(previous, desired))
  {
    hide Tracked, Collides;
    TrackedLists(previous, desired);
  }

  lemma CompletedUnshadowed(h: Host, end: Host, dev: string, previous: Spec, desired: Spec)
    requires Clear(h, dev, previous, desired) && LeavesNoMore(h, end, dev, previous, desired)
    ensures Unshadowed(end, dev, desired)
  {
    forall r | r in desired.routes && r.via.None? && KeyOf(r) in end.routes && end.routes[KeyOf(r)].dev == dev
      ensures Listed(desired, dev, KeyOf(r), end.routes[KeyOf(r)])
    {
      assert Installed(end, KeyOf(r), end.routes[KeyOf(r)]);
    }
  }

  /** No attempt, wherever it breaks off, brings a recorded route over an unrecorded one:
      what it is about to record was checked against what is there. */
  lemma AttemptUnshadowed(h: Host, dev: string, fallback: Spec, t: Attempt)
    requires Unshadowed(h, dev, Previous(h, fallback))
    ensures var after := Outcome(h, dev, fallback, t); Unshadowed(after, dev, Previous(after, fallback))
  {
    hide Plan, Collides, Clear, Within, Unshadowed, Exec, LeavesExactly, LeavesForeign, LeavesNoMore;
    var previous := Previous(h, fallback);
    var plan := Plan(previous, t.desired);
    UnshadowedIsSafe(h, dev, previous, t.desired);
    if !Begins(h, dev, fallback, t) {
      IdleAttempt(h, dev, fallback, t);
    } else if t.cut < |plan| {
      MidwayWithin(h, dev, previous, t.desired, t.cut);
      MidwayUnshadowed(h, Outcome(h, dev, fallback, t), dev, previous, t.desired);
      LedgerMidway(h, Outcome(h, dev, fallback, t), dev, previous, t.desired);
    } else {
      assert plan[..|plan|] == plan;
      CompletedPass(h, dev, previous, t.desired);
      CompletedUnshadowed(h, Outcome(h, dev, fallback, t), dev, previous, t.desired);
    }
  }

  lemma LedgerMidway(h: Host, at: Host, dev: string, previous: Spec, desired: Spec)
    requires Within(h, at, dev, previous, desired)
    ensures at.ledger == Some(Tracked(previous, desired))
  {
  }

  /** Initially the record is complete: nothing recorded counts as found. */
  lemma {:induction false} StaysAccounted(h: Host, dev: string, fallback: Spec, attempts: seq<Attempt>)
    requires Unshadowed(h, dev, Previous(h, fallback))
    ensures var at := Repeated(h, dev, fallback, attempts);
            && Accounted(h, EverNoted(h, dev, fallback, attempts), at, dev, fallback)
            && Unshadowed(at, dev, Previous(at, fallback))
  {
    hide Outcome, Noted, Unshadowed, Collides;
    if attempts != [] {
      var last := |attempts| - 1;
      var before := attempts[..last];
      var at := Repeated(h, dev, fallback, before);
      StaysAccounted(h, dev, fallback, before);
      UnshadowedIsSafe(at, dev, Previous(at, fallback), attempts[last].desired);
      AttemptUnshadowed(at, dev, fallback, attempts[last]);
      AttemptAccounted(h, EverNoted(h, dev, fallback, before), at, dev, fallback, attempts[last]);
    }
  }

  /** Nothing that was there at the start and was never recorded is missing. */
  ghost predicate NothingLost(h: Host, dev: string, fallback: Spec, attempts: seq<Attempt>) {
    forall k, hop :: Installed(h, k, hop) && !EverListed(EverNoted(h, dev, fallback, attempts), dev, k, hop) ==>
      Installed(Repeated(h, dev, fallback, attempts), k, hop)
  }

  /** The start decides: no attempts of any desired sets, broken off anywhere, ever take away
      a route that none of them recorded, exactly if at the start none lies under the key of
      a recorded route without a gateway. */
  lemma StartDecides(h: Host, dev: string, fallback: Spec)
    ensures Unshadowed(h, dev, Previous(h, fallback))
            <==> forall attempts :: NothingLost(h, dev, fallback, attempts)
  {
    hide NothingLost, Unshadowed;
    if Unshadowed(h, dev, Previous(h, fallback)) {
      forall attempts ensures NothingLost(h, dev, fallback, attempts) {
        AccountedLosesNothing(h, dev, fallback, attempts);
      }
    } else {
      var attempts := ShadowedLoses(h, dev, fallback);
    }
  }

  lemma AccountedLosesNothing(h: Host, dev: string, fallback: Spec, attempts: seq<Attempt>)
    requires Unshadowed(h, dev, Previous(h, fallback))
    ensures NothingLost(h, dev, fallback, attempts)
  {
    hide Unshadowed, Repeated, EverNoted;
    StaysAccounted(h, dev, fallback, attempts);
  }

  lemma ShadowedLoses(h: Host, dev: string, fallback: Spec) returns (attempts: seq<Attempt>)
    requires !Unshadowed(h, dev, Previous(h, fallback))
    ensures !NothingLost(h, dev, fallback, attempts)
  {
    hide Plan, Exec;
    var previous, nothing := Previous(h, fallback), Spec([], []);
    var r :| r in previous.routes && r.via.None? && KeyOf(r) in h.routes && h.routes[KeyOf(r)].dev == dev
             && !Listed(previous, dev, KeyOf(r), h.routes[KeyOf(r)]);
    assert Takes(h, dev, previous, nothing, r);
    CollisionDeletes(h, dev, previous, nothing);
    var n, k :| 0 <= n <= |Plan(previous, nothing)| && Foreign(h, dev, previous, nothing, k)
      && !Installed(Exec(h, dev, Plan(previous, nothing)[..n]), k, h.routes[k]);
    attempts := [Attempt(nothing, n)];
    assert attempts[..0] == [];
    assert Repeated(h, dev, fallback, attempts) == Exec(h, dev, Plan(previous, nothing)[..n]);
    assert Installed(h, k, h.routes[k]) && !EverListed(EverNoted(h, dev, fallback, attempts), dev, k, h.routes[k]);
  }

  /** What is left of the start beside the desired entries, with an exact record. */
  ghost predicate Converged(h: Host, end: Host, dev: string, ever: Ever, desired: Spec) {
    && end.ledger == Some(desired)
    && (forall a :: a in end.addresses <==> (a in h.addresses && a !in ever.addresses) || a in desired.addresses)
    && (forall k, hop :: Installed(end, k, hop)
                         <==> (Installed(h, k, hop) && !EverListed(ever, dev, k, hop)) || Listed(desired, dev, k, hop))
  }

  /** Convergence. However often reconciliation was broken off, and at whatever points, a
      pass that is admitted and completes leaves exactly its desired entries, beside those
      that were there at the very start and that no attempt ever recorded, with an exact
      record, if and only if no two desired routes differ in the gateway alone. */
  lemma InterruptedReconciliationConverges(h: Host, dev: string, fallback: Spec, attempts: seq<Attempt>, desired: Spec)
    requires Unshadowed(h, dev, Previous(h, fallback))
    requires var at := Repeated(h, dev, fallback, attempts); Clear(at, dev, Previous(at, fallback), desired)
    ensures var at := Repeated(h, dev, fallback, attempts);
            var end := Exec(at, dev, Plan(Previous(at, fallback), desired));
            Converged(h, end, dev, EverNoted(h, dev, fallback, attempts), desired) <==> OnePerKey(desired.routes)
  {
    hide Plan, Collides, Clear, OnePerKey, Repeated, EverNoted, Unshadowed, Exec, LeavesExactly, Converged, Accounted;
    StaysAccounted(h, dev, fallback, attempts);
    var at := Repeated(h, dev, fallback, attempts);
    UnshadowedIsSafe(at, dev, Previous(at, fallback), desired);
    CompletedPass(at, dev, Previous(at, fallback), desired);
    ConvergedIff(h, EverNoted(h, dev, fallback, attempts), at, Exec(at, dev, Plan(Previous(at, fallback), desired)),
                 dev, fallback, desired);
  }

  lemma ConvergedIff(h: Host, ever: Ever, at: Host, end: Host, dev: string, fallback: Spec, desired: Spec)
    requires Accounted(h, ever, at, dev, fallback) && end.ledger == Some(desired)
    requires forall a ::
               a in end.addresses
               <==> (a in at.addresses && a !in Previous(at, fallback).addresses) || a in desired.addresses
    requires LeavesNoMore(at, end, dev, Previous(at, fallback), desired)
             && LeavesForeign(at, end, dev, Previous(at, fallback), desired)
    ensures Converged(h, end, dev, ever, desired) <==> LeavesExactly(at, end, dev, Previous(at, fallback), desired)
  {
    hide Installed;
    forall k, hop ensures Installed(h, k, hop) && !EverListed(ever, dev, k, hop)
                          <==> Installed(at, k, hop) && !Listed(Previous(at, fallback), dev, k, hop)
    {
    }
  }

  // ---------------------------------------------------------------- retries

  /** A desired set that was admitted once stays admitted, wherever its pass broke off. */
  lemma RetryAdmitted(h: Host, dev: string, fallback: Spec, t: Attempt)
    requires Clear(h, dev, Previous(h, fallback), t.desired)
    ensures var after := Outcome(h, dev, fallback, t); Clear(after, dev, Previous(after, fallback), t.desired)
  {
    hide Plan, Collides, Within, Exec, Clear;
    var previous := Previous(h, fallback);
    var plan := Plan(previous, t.desired);
    if t.cut == 0 {
      IdleAttempt(h, dev, fallback, t);
    } else if t.cut < |plan| {
      MidwayWithin(h, dev, previous, t.desired, t.cut);
      MidwayAdmits(h, Outcome(h, dev, fallback, t), dev, previous, t.desired);
      LedgerMidway(h, Outcome(h, dev, fallback, t), dev, previous, t.desired);
    } else {
      assert plan[..|plan|] == plan;
      CompletedAdmits(h, dev, previous, t.desired);
    }
  }

  lemma MidwayAdmits(h: Host, at: Host, dev: string, previous: Spec, desired: Spec)
    requires Clear(h, dev, previous, desired) && Within(h, at, dev, previous, desired)
    ensures Clear(at, dev, Tracked(previous, desired), desired)
  {
    hide Tracked, Collides;
    TrackedLists(previous, desired);
  }

  lemma CompletedAdmits(h: Host, dev: string, previous: Spec, desired: Spec)
    requires Clear(h, dev, previous, desired)
    ensures var end := Exec(h, dev, Plan(previous, desired));
            Clear(end, dev, desired, desired) && end.ledger == Some(desired)
  {
    hide Changes, Collides, Within, Clear, Tracked;
    var plan := Plan(previous, desired);
    var n := |plan| - 1;
    MidwayWithin(h, dev, previous, desired, n);
    var middle := Exec(h, dev, plan[..n]);
    var recorded := Apply(h, dev, Record(Tracked(previous, desired)));
    PassEnds(h, dev, previous, desired);
    forall k, hop | Listed(previous, dev, k, hop) && !Listed(desired, dev, k, hop) ensures !Installed(middle, k, hop) {
      StaleGone(recorded, dev, previous, desired, k, hop);
    }
    StillClear(h, middle, Exec(h, dev, plan), dev, previous, desired);
  }

  lemma StillClear(h: Host, middle: Host, end: Host, dev: string, previous: Spec, desired: Spec)
    requires Clear(h, dev, previous, desired) && Within(h, middle, dev, previous, desired)
             && end.routes == middle.routes
    requires forall k, hop :: Listed(previous, dev, k, hop) && !Listed(desired, dev, k, hop) ==>
               !Installed(middle, k, hop)
    ensures Clear(end, dev, desired, desired)
  {
    hide Tracked, Collides;
    forall r, k | r in desired.routes && k in end.routes && k.dest == r.dest
      ensures end.routes[k].dev == dev && Route(k.dest, k.metric, end.routes[k].via) in desired.routes
    {
      assert Installed(middle, k, end.routes[k]);
    }
  }

  function Retries(desired: Spec, cuts: seq<nat>): seq<Attempt> {
    seq(|cuts|, i requires 0 <= i < |cuts| => Attempt(desired, cuts[i]))
  }

  lemma {:induction false} RetriesAdmitted(h: Host, dev: string, fallback: Spec, attempts: seq<Attempt>, desired: Spec,
                                           cuts: seq<nat>)
    requires var at := Repeated(h, dev, fallback, attempts); Clear(at, dev, Previous(at, fallback), desired)
    ensures var at := Repeated(h, dev, fallback, attempts + Retries(desired, cuts));
            Clear(at, dev, Previous(at, fallback), desired)
  {
    hide Clear, Outcome;
    if cuts == [] {
      assert attempts + Retries(desired, cuts) == attempts;
    } else {
      var last := |cuts| - 1;
      var all := attempts + Retries(desired, cuts);
      RetriesAdmitted(h, dev, fallback, attempts, desired, cuts[..last]);
      assert all[..|all| - 1] == attempts + Retries(desired, cuts[..last])
          && all[|all| - 1] == Attempt(desired, cuts[last]);
      RetryAdmitted(Repeated(h, dev, fallback, all[..|all| - 1]), dev, fallback, Attempt(desired, cuts[last]));
    }
  }

  /** Retrying. Once a desired set was admitted, after any past, its pass may break off any
      number of times anywhere: it is admitted again, and completing converges. */
  lemma RetriedPassConverges(h: Host, dev: string, fallback: Spec, attempts: seq<Attempt>, desired: Spec,
                             cuts: seq<nat>)
    requires Unshadowed(h, dev, Previous(h, fallback))
    requires var at := Repeated(h, dev, fallback, attempts); Clear(at, dev, Previous(at, fallback), desired)
    ensures var all := attempts + Retries(desired, cuts);
            var at := Repeated(h, dev, fallback, all);
            && Clear(at, dev, Previous(at, fallback), desired)
            && (Converged(h, Exec(at, dev, Plan(Previous(at, fallback), desired)), dev,
                          EverNoted(h, dev, fallback, all), desired)
                <==> OnePerKey(desired.routes))
  {
    hide Clear, Repeated, EverNoted, Converged, Plan, Exec, OnePerKey, Unshadowed;
    RetriesAdmitted(h, dev, fallback, attempts, desired, cuts);
    InterruptedReconciliationConverges(h, dev, fallback, attempts + Retries(desired, cuts), desired);
  }
}

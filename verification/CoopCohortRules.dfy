/**
 What makes routes a cohort, an action schedulable and an operation settled, written out on the members of the
 envelopes and without the order of the checks.
 */
module CoopCohortRules {
  import opened Outcomes
  import opened CoopWire
  import opened CoopCohort
  import opened Sorting

  // ---------- Single observations and envelopes ----------

  predicate OfProfile(e: Envelope) {
    && e.protocolVersion == "coop-native-v1"
    && e.schemaDigest == "2f3bc99e53080fa11b39592b64fb0ab964a16f568719a2622d0b2caf766ab629"
  }

  predicate SameLease(a: Header, b: Header) {
    (a.instanceId, a.sessionId, a.leaseId, a.leaseEpoch) == (b.instanceId, b.sessionId, b.leaseId, b.leaseEpoch)
  }

  predicate Steady(p: Peer) {
    p.connected && p.digestKnown && !p.loading && !p.divergent
  }

  predicate Shares(o: Observation, p: Peer) {
    p.checkpointId == Some(o.checkpointId) && p.stateDigest == o.stateDigest && p.authorityId == o.authorityId
  }

  predicate IsReady(o: Observation) {
    o.hostDigestKnown && !o.hostLoading && !o.hostDivergent && forall p :: p in o.peers ==> Steady(p) && Shares(o, p)
  }

  /** Exactly one peer is local, and this is its token. */
  ghost predicate OnlyLocal(o: Observation, token: string) {
    exists k :: 0 <= k < |o.peers| && o.peers[k].token == token && IsLocalAt(o.peers, k)
  }

  ghost predicate IsLocalAt(peers: seq<Peer>, k: nat) {
    k < |peers| && peers[k].role == Local && forall i :: 0 <= i < |peers| && peers[i].role == Local ==> i == k
  }

  predicate Lists(o: Observation, token: string) {
    exists p | p in o.peers :: p.token == token
  }

  lemma {:induction false} NoTokens(peers: seq<Peer>)
    ensures LocalTokens(peers) == [] <==> forall i :: 0 <= i < |peers| ==> peers[i].role != Local
  {
    if peers != [] {
      NoTokens(peers[1..]);
      assert forall i :: 0 < i < |peers| ==> peers[i] == peers[1..][i - 1];
    }
  }

  lemma {:induction false} OneToken(peers: seq<Peer>, token: string)
    ensures LocalTokens(peers) == [token] <==> exists k :: 0 <= k < |peers| && peers[k].token == token && IsLocalAt(peers, k)
  {
    if peers != [] {
      var rest := peers[1..];
      OneToken(rest, token);
      NoTokens(rest);
      assert forall i :: 0 < i < |peers| ==> peers[i] == rest[i - 1];
      if peers[0].role == Local {
        assert LocalTokens(peers) == [peers[0].token] + LocalTokens(rest);
        assert LocalTokens(peers)[0] == peers[0].token && LocalTokens(peers)[1..] == LocalTokens(rest);
        assert [token][1..] == [];
        if LocalTokens(rest) == [] {
          assert IsLocalAt(peers, 0);
        }
      } else {
        assert [] + LocalTokens(rest) == LocalTokens(rest);
        if k :| 0 <= k < |rest| && rest[k].token == token && IsLocalAt(rest, k) {
          assert IsLocalAt(peers, k + 1);
        }
        if k :| 0 <= k < |peers| && peers[k].token == token && IsLocalAt(peers, k) {
          assert IsLocalAt(rest, k - 1);
        }
      }
    }
  }

  lemma LocalMeans(o: Observation, token: string)
    ensures SoleLocal(o) == Some(token) <==> OnlyLocal(o, token)
  {
    OneToken(o.peers, token);
    hide LocalTokens, IsLocalAt;
    if SoleLocal(o) == Some(token) {
      assert LocalTokens(o.peers) == [token];
    }
  }

  lemma ReadyMeans(o: Observation)
    ensures Ready(o) <==> IsReady(o)
  {
  }

  lemma ListsMeans(o: Observation)
    ensures forall token :: token in RosterOf(o) <==> Lists(o, token)
  {
  }

  predicate Sound(o: Observation, p: Peer) {
    Steady(p) && Shares(o, p)
  }

  /** The first peer that is not steady, or does not share the observed state; and whether it is steady. */
  ghost predicate FirstFault(o: Observation, peers: seq<Peer>, k: int, steady: bool) {
    0 <= k < |peers| && !Sound(o, peers[k]) && Steady(peers[k]) == steady && forall i :: 0 <= i < k ==> Sound(o, peers[i])
  }

  lemma FaultLater(o: Observation, peers: seq<Peer>, k: int, steady: bool)
    requires peers != [] && Sound(o, peers[0])
    ensures FirstFault(o, peers[1..], k - 1, steady) <==> FirstFault(o, peers, k, steady)
  {
    hide Sound, Steady;
    var rest := peers[1..];
    assert forall i :: 0 < i < |peers| ==> peers[i] == rest[i - 1];
    if FirstFault(o, peers, k, steady) {
      assert forall i :: 0 <= i < k - 1 ==> rest[i] == peers[i + 1];
    }
  }

  lemma FaultsShift(o: Observation, peers: seq<Peer>, steady: bool)
    requires peers != [] && Sound(o, peers[0])
    ensures (exists k :: FirstFault(o, peers[1..], k, steady)) <==> exists k :: FirstFault(o, peers, k, steady)
  {
    hide FirstFault, Sound;
    if k :| FirstFault(o, peers[1..], k, steady) {
      FaultLater(o, peers, k + 1, steady);
    }
    if k :| FirstFault(o, peers, k, steady) {
      FaultLater(o, peers, k, steady);
    }
  }

  /** That peer decides the refusal. */
  lemma {:induction false} PeersOutcome(o: Observation, peers: seq<Peer>)
    ensures var error := PeersError(o, peers);
            && (error == Some(NotReady) <==> exists k :: FirstFault(o, peers, k, false))
            && (error == Some(CheckpointMismatch) <==> exists k :: FirstFault(o, peers, k, true))
            && (error.Some? ==> error.value in {NotReady, CheckpointMismatch})
  {
    if peers != [] {
      PeersOutcome(o, peers[1..]);
      if Sound(o, peers[0]) {
        FaultsShift(o, peers, false);
        FaultsShift(o, peers, true);
        hide FirstFault;
      } else {
        assert FirstFault(o, peers, 0, Steady(peers[0]));
        FaultIsFirst(o, peers);
        hide FirstFault;
      }
    }
  }

  lemma FaultIsFirst(o: Observation, peers: seq<Peer>)
    requires peers != [] && !Sound(o, peers[0])
    ensures forall k, steady :: FirstFault(o, peers, k, steady) ==> steady == Steady(peers[0])
  {
  }

  // ---------- Routes and cohorts ----------

  /** An observation and the catalog of the same moment, lease and peer, in a ready game seen from that peer. */
  ghost predicate RouteFits(r: Route) {
    && OfProfile(r.observation) && OfProfile(r.catalog)
    && r.observation.body.ObservationBody? && r.catalog.body.CatalogResponse?
    && SameLease(r.observation.header, r.catalog.header)
    && var o, catalog := r.observation.body.seen, r.catalog.body.catalog;
       && r.catalog.body.seen == o && catalog.hostGeneration == o.hostGeneration && catalog.actorPeer == r.peer
       && OnlyLocal(o, r.peer) && IsReady(o)
  }

  lemma RouteMeans(r: Route)
    ensures LocallyValid(r) <==> RouteFits(r)
  {
    hide IsReady, Ready, OnlyLocal, SoleLocal;
    if r.observation.body.ObservationBody? {
      ReadyMeans(r.observation.body.seen);
      LocalMeans(r.observation.body.seen, r.peer);
    }
  }

  /** What a route is refused for: the first of these that fails. */
  lemma RouteOutcome(r: Route)
    ensures var error := RouteError(r);
            var profiled := OfProfile(r.observation) && OfProfile(r.catalog);
            var shaped := r.observation.body.ObservationBody? && r.catalog.body.CatalogResponse?;
            && (error == Some(ProfileMismatch) <==> !profiled)
            && (error == Some(RouteShape) <==> profiled && !shaped)
            && (profiled && shaped ==>
                  var leased := SameLease(r.observation.header, r.catalog.header);
                  var o, catalog := r.observation.body.seen, r.catalog.body.catalog;
                  var current := r.catalog.body.seen == o && catalog.hostGeneration == o.hostGeneration && catalog.actorPeer == r.peer;
                  var hosted := o.hostDigestKnown && !o.hostLoading && !o.hostDivergent;
                  var seen := leased && current && OnlyLocal(o, r.peer);
                  && (error == Some(RouteFenceMismatch) <==> !leased)
                  && (error == Some(CatalogMismatch) <==> leased && !current)
                  && (error == Some(LocalPeerMismatch) <==> leased && current && !OnlyLocal(o, r.peer))
                  && (error == Some(NotReady) <==> seen && (!hosted || exists k :: FirstFault(o, o.peers, k, false)))
                  && (error == Some(CheckpointMismatch) <==> seen && hosted && exists k :: FirstFault(o, o.peers, k, true)))
  {
    hide OnlyLocal, SoleLocal, PeersError, FirstFault;
    if r.observation.body.ObservationBody? {
      PeersOutcome(r.observation.body.seen, r.observation.body.seen.peers);
      LocalMeans(r.observation.body.seen, r.peer);
    }
  }

  /** Two to four fitting routes of different peers, which agree on the game and see exactly one another. */
  ghost predicate IsCohort(routes: seq<Route>) {
    && 2 <= |routes| <= 4
    && (forall r :: r in routes ==> RouteFits(r))
    && (forall i, j :: 0 <= i < j < |routes| ==> routes[i].peer != routes[j].peer)
    && (forall r, q :: r in routes && q in routes ==> SameGame(r.observation, q.observation))
    && (forall r :: r in routes ==> SeesAll(r, routes))
  }

  predicate SameGame(e: Envelope, f: Envelope) {
    && e.body.ObservationBody? && f.body.ObservationBody?
    && var a, b := e.body.seen, f.body.seen;
       (a.runId, a.authorityId, a.checkpointId, a.stateDigest) == (b.runId, b.authorityId, b.checkpointId, b.stateDigest)
  }

  ghost predicate SeesAll(r: Route, routes: seq<Route>) {
    && r.observation.body.ObservationBody?
    && forall token :: Lists(r.observation.body.seen, token) <==> exists q :: q in routes && q.peer == token
  }

  lemma SeesMeans(r: Route, routes: seq<Route>)
    requires r.observation.body.ObservationBody?
    ensures SeesAll(r, routes) <==> RosterOf(r.observation.body.seen) == set p | p in Peers(routes)
  {
    ListsMeans(r.observation.body.seen);
    hide RosterOf, Lists, Peers;
    var peers := set p | p in Peers(routes);
    forall token ensures token in peers <==> exists q :: q in routes && q.peer == token {
      PeersIn(routes, token);
    }
    if SeesAll(r, routes) {
      assert forall token :: token in RosterOf(r.observation.body.seen) <==> token in peers;
    }
  }

  lemma DistinctMeans(routes: seq<Route>)
    ensures Distinct(Peers(routes)) <==> forall i, j :: 0 <= i < j < |routes| ==> routes[i].peer != routes[j].peer
  {
    var peers := Peers(routes);
    hide Peers;
    if Distinct(peers) {
      forall i, j | 0 <= i < j < |routes| ensures routes[i].peer != routes[j].peer {
        assert peers[i] != peers[j];
      }
    }
  }

  lemma CohortMeans(routes: seq<Route>)
    ensures FormsCohort(routes) <==> IsCohort(routes)
  {
    DistinctMeans(routes);
    forall r | r in routes ensures LocallyValid(r) <==> RouteFits(r) {
      RouteMeans(r);
    }
    forall r | r in routes && r.observation.body.ObservationBody?
      ensures SeesAll(r, routes) <==> RosterOf(r.observation.body.seen) == set p | p in Peers(routes)
    {
      SeesMeans(r, routes);
    }
    forall r | r in routes && LocallyValid(r) ensures r.observation.body.ObservationBody? {
      LocallyValidShape(r);
    }
    hide LocallyValid, RouteFits, SeesAll, RosterOf, Peers, Distinct;
  }

  // ---------- Scheduling ----------

  /** The request is the peer's own, on its route, for an action of the current catalog. */
  ghost predicate Schedules(c: Cohort, peer: string, request: Envelope) {
    && peer in c.routes && OfProfile(request) && request.body.LocalActionRequest? && request.body.actor == peer
    && var route, action := c.routes[peer], request.body;
       && SameLease(route.observation.header, request.header)
       && route.observation.body.ObservationBody? && route.observation.body.seen.hostGeneration == action.generation
       && route.catalog.body.CatalogResponse? && route.catalog.body.catalog.hostGeneration == action.generation
       && action.action in route.catalog.body.catalog.actions
  }

  /** In a cohort exactly those requests schedule an operation, and it carries the request's identity, lease and generation. */
  lemma ScheduleOutcome(routes: seq<Route>, c: Cohort, peer: string, request: Envelope)
    requires IsCohort(routes) && IsCohortOf(c, routes)
    ensures var r := ScheduleLocalAction(c, peer, request);
            && (r.Ok? <==> Schedules(c, peer, request))
            && (r.Ok? ==>
                  var h := request.header;
                  r.value == Operation(peer, request.body.operationId, h.instanceId, h.sessionId, h.leaseId, h.leaseEpoch,
                                       request.body.generation))
            && (r == Err(LocalPeerMismatch) <==> peer !in c.routes)
            && (r == Err(ProfileMismatch) <==> peer in c.routes && !OfProfile(request))
            && (r == Err(ActionNotCurrent) <==> peer in c.routes && OfProfile(request) && !Schedules(c, peer, request))
  {
    hide IsCohort, FormsCohort, IsCohortOf, LocallyValid;
    CohortMeans(routes);
    if peer in c.routes {
      ScheduledRoute(routes, c, peer);
      LocallyValidShape(c.routes[peer]);
      ScheduleOnRoute(c, peer, request);
    }
    hide Schedules;
  }

  lemma ScheduleOnRoute(c: Cohort, peer: string, request: Envelope)
    requires peer in c.routes && c.routes[peer].observation.body.ObservationBody? && c.routes[peer].catalog.body.CatalogResponse?
    ensures var r := ScheduleLocalAction(c, peer, request);
            && (r.Ok? <==> Schedules(c, peer, request))
            && (r.Ok? ==>
                  var h := request.header;
                  r.value == Operation(peer, request.body.operationId, h.instanceId, h.sessionId, h.leaseId, h.leaseEpoch,
                                       request.body.generation))
            && (r == Err(ProfileMismatch) <==> !OfProfile(request))
            && (r == Err(ActionNotCurrent) <==> OfProfile(request) && !Schedules(c, peer, request))
            && r != Err(LocalPeerMismatch)
  {
    assert OfProfile(request) <==> ProfileOk(request);
    hide OfProfile, ProfileOk;
  }

  // ---------- Settlement ----------

  /** The response comes back on the route that the operation was scheduled on. */
  ghost predicate ReturnsOn(c: Cohort, op: Operation, peer: string, response: Envelope) {
    && peer == op.routePeer && peer in c.routes && SameLease(c.routes[peer].observation.header, response.header)
    && (response.header.instanceId, response.header.sessionId, response.header.leaseId, response.header.leaseEpoch)
       == (op.instanceId, op.sessionId, op.leaseId, op.leaseEpoch)
    && !response.body.ObservationBody? && !response.body.CatalogRequest? && !response.body.CatalogResponse?
    && response.body.operationId == op.operationId
  }

  /** A settled effect from the operation's generation to the observed, later one, with a receipt that says the same. */
  predicate Proves(op: Operation, b: Body)
    requires b.EffectResponse?
  {
    && b.status == b.proof.status == Settled && b.effect.Some?
    && b.operationId == b.proof.operationId == b.effect.value.operationId == op.operationId
    && b.proof.beforeGeneration == b.effect.value.fromGeneration == op.expectedGeneration < b.seen.hostGeneration
    && b.effect.value.toGeneration == b.seen.hostGeneration && b.proof.afterGeneration == Some(b.seen.hostGeneration)
  }

  /** A refreshed view of the settled state from a route of the cohort, with its matched checksum. */
  ghost predicate Confirms(c: Cohort, settled: Observation, e: Envelope, token: string) {
    && OfProfile(e) && e.body.ObservationBody? && IsReady(e.body.seen) && OnlyLocal(e.body.seen, token)
    && token in c.routes && SameLease(c.routes[token].observation.header, e.header)
    && (forall t :: Lists(e.body.seen, t) <==> t in c.roster)
    && var o := e.body.seen;
       && (o.runId, o.authorityId, o.checkpointId, o.stateDigest) == (settled.runId, settled.authorityId, settled.checkpointId, settled.stateDigest)
       && o.checksumStatus == Matched && o.nativeChecksum == settled.nativeChecksum && settled.nativeChecksum.Some?
  }

  /** Every roster peer confirms once, and nothing else was heard. */
  ghost predicate AllConfirm(c: Cohort, observations: seq<Envelope>, settled: Observation) {
    && |observations| == |c.routes| && settled.checksumStatus == Matched && settled.nativeChecksum.Some?
    && (forall e :: e in observations ==> exists token :: Confirms(c, settled, e, token))
    && (forall i, j, token :: 0 <= i < j < |observations| && Confirms(c, settled, observations[i], token) ==>
          !Confirms(c, settled, observations[j], token))
    && (forall token :: token in c.roster <==> exists e :: e in observations && Confirms(c, settled, e, token))
  }

  ghost predicate IsSettlement(c: Cohort, op: Operation, peer: string, response: Envelope, observations: seq<Envelope>) {
    && ReturnsOn(c, op, peer, response) && response.body.EffectResponse? && Proves(op, response.body)
    && IsReady(response.body.seen) && (forall t :: Lists(response.body.seen, t) <==> t in c.roster)
    && AllConfirm(c, observations, response.body.seen)
  }

  lemma RosterMeans(o: Observation, roster: set<string>)
    ensures RosterOf(o) == roster <==> forall t :: Lists(o, t) <==> t in roster
  {
    ListsMeans(o);
    hide RosterOf, Lists;
    if forall t :: Lists(o, t) <==> t in roster {
      assert forall t :: t in RosterOf(o) <==> t in roster;
    }
  }

  lemma ConfirmsMeans(c: Cohort, settled: Observation, e: Envelope, token: string)
    ensures Confirms(c, settled, e, token) <==>
            Refreshed(c, settled, e) && LocalOf(e) == token && SoleLocal(e.body.seen).Some? && ChecksumMatches(settled, e.body.seen)
  {
    hide IsReady, Ready, OnlyLocal, SoleLocal, Lists, RosterOf;
    if e.body.ObservationBody? {
      ReadyMeans(e.body.seen);
      LocalMeans(e.body.seen, token);
      RosterMeans(e.body.seen, c.roster);
    }
  }

  lemma ConfirmsShape(c: Cohort, settled: Observation, e: Envelope)
    ensures Refreshed(c, settled, e) && ChecksumMatches(settled, e.body.seen) <==> Confirms(c, settled, e, LocalOf(e))
    ensures forall token :: Confirms(c, settled, e, token) ==> token == LocalOf(e)
  {
    forall token ensures Confirms(c, settled, e, token) ==> token == LocalOf(e) {
      ConfirmsMeans(c, settled, e, token);
    }
    ConfirmsMeans(c, settled, e, LocalOf(e));
    hide Confirms, Ready, SoleLocal, RosterOf, ProfileOk, SameFence;
  }

  /** A confirmation is a refreshed observation with the checksum, and it comes from its local peer. */
  ghost predicate Shaped(c: Cohort, settled: Observation, e: Envelope) {
    && (Refreshed(c, settled, e) && ChecksumMatches(settled, e.body.seen) <==> Confirms(c, settled, e, LocalOf(e)))
    && (forall token :: Confirms(c, settled, e, token) ==> token == LocalOf(e))
  }

  lemma ConvergedMeans(c: Cohort, observations: seq<Envelope>, settled: Observation)
    ensures Converged(c, observations, settled) <==> AllConfirm(c, observations, settled)
  {
    forall e | e in observations ensures Shaped(c, settled, e) {
      ConfirmsShape(c, settled, e);
    }
    hide Converged, AllConfirm, Shaped;
    if Converged(c, observations, settled) {
      ConvergedConfirms(c, observations, settled);
    }
    if AllConfirm(c, observations, settled) {
      ConfirmedConverges(c, observations, settled);
    }
  }

  lemma ConvergedConfirms(c: Cohort, observations: seq<Envelope>, settled: Observation)
    requires Converged(c, observations, settled) && forall e :: e in observations ==> Shaped(c, settled, e)
    ensures AllConfirm(c, observations, settled)
  {
    hide Confirms, Refreshed, ChecksumMatches, LocalOf, LocalsOf;
    var locals := LocalsOf(observations);
    forall e | e in observations ensures Confirms(c, settled, e, LocalOf(e)) {
      RefreshedShape(c, settled, e);
      assert Refreshed(c, settled, e) && ChecksumMatches(settled, e.body.seen) && Shaped(c, settled, e);
    }
    forall i, j, token | 0 <= i < j < |observations| && Confirms(c, settled, observations[i], token)
      ensures !Confirms(c, settled, observations[j], token)
    {
      assert Shaped(c, settled, observations[i]) && Shaped(c, settled, observations[j]);
      assert locals[i] != locals[j];
    }
    forall token ensures token in c.roster <==> exists e :: e in observations && Confirms(c, settled, e, token) {
      LocalsIn(observations, token);
      assert token in c.roster <==> token in locals;
      if e :| e in observations && Confirms(c, settled, e, token) {
        assert Shaped(c, settled, e);
      }
    }
  }

  lemma ConfirmedConverges(c: Cohort, observations: seq<Envelope>, settled: Observation)
    requires AllConfirm(c, observations, settled) && forall e :: e in observations ==> Shaped(c, settled, e)
    ensures Converged(c, observations, settled)
  {
    hide Confirms, Refreshed, ChecksumMatches, LocalOf, LocalsOf;
    var locals := LocalsOf(observations);
    forall e | e in observations
      ensures Confirms(c, settled, e, LocalOf(e)) && Refreshed(c, settled, e) && e.body.ObservationBody?
      ensures ChecksumMatches(settled, e.body.seen)
    {
      var token :| Confirms(c, settled, e, token);
      assert Shaped(c, settled, e);
      RefreshedShape(c, settled, e);
    }
    forall i, j | 0 <= i < j < |locals| ensures locals[i] != locals[j] {
      assert Confirms(c, settled, observations[i], locals[i]) && Confirms(c, settled, observations[j], locals[j]);
    }
    forall token ensures token in locals <==> token in c.roster {
      LocalsIn(observations, token);
      if token in locals {
        var e :| e in observations && LocalOf(e) == token;
        assert Confirms(c, settled, e, token);
      }
      if e :| e in observations && Confirms(c, settled, e, token) {
        assert Shaped(c, settled, e);
      }
    }
    assert (set p | p in locals) == c.roster;
  }

  /** Exactly which responses and observations settle an operation. */
  lemma SettlementMeans(c: Cohort, op: Operation, peer: string, response: Envelope, observations: seq<Envelope>)
    ensures Settles(c, op, peer, response, observations) <==> IsSettlement(c, op, peer, response, observations)
  {
    if response.body.EffectResponse? {
      ReadyMeans(response.body.seen);
      RosterMeans(response.body.seen, c.roster);
      ConvergedMeans(c, observations, response.body.seen);
    }
    hide Ready, IsReady, RosterOf, Lists, Converged, AllConfirm;
  }
}

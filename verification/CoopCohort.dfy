/**
 The native co-op cohort: validation of two to four routes by an accumulating loop, scheduling of a
 catalog action, and settlement against refreshed observations of the whole roster.
 */
module CoopCohort {
  import opened Outcomes
  import opened CoopWire
  import opened Sorting

  datatype Route = Route(peer: string, observation: Envelope, catalog: Envelope)

  datatype Cohort = Cohort(routes: map<string, Route>, roster: set<string>)

  datatype Operation = Operation(
    routePeer: string, operationId: string, instanceId: string, sessionId: string, leaseId: string,
    leaseEpoch: nat, expectedGeneration: nat)

  datatype CohortError =
    | ParticipantCount | ProfileMismatch | RouteShape | RouteFenceMismatch | DuplicateRoute | LocalPeerMismatch
    | RosterMismatch | RunMismatch | AuthorityMismatch | NotReady | CheckpointMismatch | CatalogMismatch
    | ActionNotCurrent | SettlementNotOriginalRoute | SettlementNotSettled | SettlementEvidence | RosterNotConverged

  // ---------- Projections ----------

  predicate ProfileOk(e: Envelope) {
    e.protocolVersion == PROTOCOL_VERSION && e.schemaDigest == SCHEMA_DIGEST
  }

  function RosterOf(o: Observation): set<string> {
    set p | p in o.peers :: p.token
  }

  function LocalTokens(peers: seq<Peer>): seq<string> {
    if peers == [] then []
    else (if peers[0].role == Local then [peers[0].token] else []) + LocalTokens(peers[1..])
  }

  /** `sole_local_peer`. */
  function SoleLocal(o: Observation): Option<string> {
    var locals := LocalTokens(o.peers);
    if |locals| == 1 then Some(locals[0]) else None
  }

  predicate PeerConnected(p: Peer) {
    p.connected && !p.loading && !p.divergent && p.digestKnown
  }

  predicate PeerAgrees(o: Observation, p: Peer) {
    p.checkpointId == Some(o.checkpointId) && p.stateDigest == o.stateDigest && p.authorityId == o.authorityId
  }

  function PeersError(o: Observation, peers: seq<Peer>): Option<CohortError> {
    if peers == [] then None
    else if !PeerConnected(peers[0]) then Some(NotReady)
    else if !PeerAgrees(o, peers[0]) then Some(CheckpointMismatch)
    else PeersError(o, peers[1..])
  }

  /** `validate_ready_observation`. */
  function ReadyError(o: Observation): Option<CohortError> {
    if !o.hostDigestKnown || o.hostLoading || o.hostDivergent then Some(NotReady) else PeersError(o, o.peers)
  }

  /** The host and every peer are ready and share one checkpoint, state and authority. */
  predicate Ready(o: Observation) {
    && o.hostDigestKnown && !o.hostLoading && !o.hostDivergent
    && forall p :: p in o.peers ==> PeerConnected(p) && PeerAgrees(o, p)
  }

  lemma {:induction false} PeersErrorMeans(o: Observation, peers: seq<Peer>)
    ensures PeersError(o, peers) == None <==> forall p :: p in peers ==> PeerConnected(p) && PeerAgrees(o, p)
  {
    if peers != [] {
      PeersErrorMeans(o, peers[1..]);
      assert peers == [peers[0]] + peers[1..];
    }
  }

  lemma ReadyErrorMeans(o: Observation)
    ensures ReadyError(o) == None <==> Ready(o)
  {
    PeersErrorMeans(o, o.peers);
  }

  // ---------- Validation ----------

  /** The checks of one route on its own, in the order of the source. */
  function RouteError(r: Route): Option<CohortError> {
    if !ProfileOk(r.observation) || !ProfileOk(r.catalog) then Some(ProfileMismatch)
    else if !r.observation.body.ObservationBody? || !r.catalog.body.CatalogResponse? then Some(RouteShape)
    else
      var o, response := r.observation.body.seen, r.catalog.body;
      if !SameFence(r.observation.header, r.catalog.header) then Some(RouteFenceMismatch)
      else if response.seen != o || response.catalog.hostGeneration != o.hostGeneration
              || response.catalog.actorPeer != r.peer then Some(CatalogMismatch)
      else if SoleLocal(o) != Some(r.peer) then Some(LocalPeerMismatch)
      else ReadyError(o)
  }

  predicate LocallyValid(r: Route) {
    && ProfileOk(r.observation) && ProfileOk(r.catalog)
    && r.observation.body.ObservationBody? && r.catalog.body.CatalogResponse?
    && SameFence(r.observation.header, r.catalog.header)
    && r.catalog.body.seen == r.observation.body.seen
    && r.catalog.body.catalog.hostGeneration == r.observation.body.seen.hostGeneration
    && r.catalog.body.catalog.actorPeer == r.peer
    && SoleLocal(r.observation.body.seen) == Some(r.peer)
    && Ready(r.observation.body.seen)
  }

  predicate Agree(a: Observation, b: Observation) {
    && RosterOf(a) == RosterOf(b) && a.runId == b.runId && a.authorityId == b.authorityId
    && a.checkpointId == b.checkpointId && a.stateDigest == b.stateDigest
  }

  /** What makes routes a cohort, with no order among them. */
  ghost predicate FormsCohort(routes: seq<Route>) {
    && 2 <= |routes| <= 4
    && (forall r :: r in routes ==> LocallyValid(r))
    && (forall r, q :: r in routes && q in routes ==> Agree(r.observation.body.seen, q.observation.body.seen))
    && Distinct(Peers(routes))
    && (forall r :: r in routes ==> RosterOf(r.observation.body.seen) == set p | p in Peers(routes))
  }

  function Peers(routes: seq<Route>): (peers: seq<string>)
    ensures |peers| == |routes|
    ensures forall i :: 0 <= i < |routes| ==> peers[i] == routes[i].peer
  {
    if routes == [] then [] else [routes[0].peer] + Peers(routes[1..])
  }

  ghost predicate IsCohortOf(c: Cohort, routes: seq<Route>) {
    && c.roster == (set p | p in Peers(routes))
    && c.routes.Keys == c.roster
    && forall r :: r in routes ==> r.peer in c.routes && c.routes[r.peer] == r
  }

  /** Two routes disagree on `f`. */
  ghost predicate Disagree<T(!new)>(routes: seq<Route>, f: Observation -> T) {
    exists r, q :: r in routes && q in routes && r.observation.body.ObservationBody? && q.observation.body.ObservationBody?
                   && f(r.observation.body.seen) != f(q.observation.body.seen)
  }

  /** The defect that a refusal names is there. */
  ghost predicate Justified(routes: seq<Route>, error: CohortError) {
    match error
    case ParticipantCount => !(2 <= |routes| <= 4)
    case DuplicateRoute => !Distinct(Peers(routes))
    case RosterMismatch =>
      || Disagree(routes, RosterOf)
      || exists r :: r in routes && r.observation.body.ObservationBody?
                     && RosterOf(r.observation.body.seen) != set p | p in Peers(routes)
    case RunMismatch => Disagree(routes, (o: Observation) => o.runId)
    case AuthorityMismatch => Disagree(routes, (o: Observation) => o.authorityId)
    case CheckpointMismatch =>
      || Disagree(routes, (o: Observation) => (o.checkpointId, o.stateDigest))
      || exists r :: r in routes && RouteError(r) == Some(CheckpointMismatch)
    case _ => exists r :: r in routes && RouteError(r) == Some(error)
  }

  lemma RouteErrorMeans(r: Route)
    ensures RouteError(r) == None <==> LocallyValid(r)
  {
    if r.observation.body.ObservationBody? {
      ReadyErrorMeans(r.observation.body.seen);
    }
  }

  lemma RouteErrorJustified(routes: seq<Route>, r: Route)
    requires r in routes && RouteError(r).Some?
    ensures Justified(routes, RouteError(r).value)
  {
    if r.observation.body.ObservationBody? {
      PeersErrorKinds(r.observation.body.seen, r.observation.body.seen.peers);
    }
  }

  lemma {:induction false} PeersErrorKinds(o: Observation, peers: seq<Peer>)
    ensures PeersError(o, peers).Some? ==> PeersError(o, peers).value in {NotReady, CheckpointMismatch}
  {
    if peers != [] {
      PeersErrorKinds(o, peers[1..]);
    }
  }

  /** The comparisons of one observation with what the earlier routes reported. */
  function AgreementError(expected: Observation, o: Observation): Option<CohortError> {
    if RosterOf(expected) != RosterOf(o) then Some(RosterMismatch)
    else if expected.runId != o.runId then Some(RunMismatch)
    else if expected.authorityId != o.authorityId then Some(AuthorityMismatch)
    else if expected.checkpointId != o.checkpointId || expected.stateDigest != o.stateDigest then Some(CheckpointMismatch)
    else None
  }

  lemma AgreementErrorJustified(routes: seq<Route>, q: Route, r: Route)
    requires q in routes && r in routes && q.observation.body.ObservationBody? && r.observation.body.ObservationBody?
    requires AgreementError(q.observation.body.seen, r.observation.body.seen).Some?
    ensures Justified(routes, AgreementError(q.observation.body.seen, r.observation.body.seen).value)
  {
    hide RouteError, RosterOf;
    var a, b := q.observation.body.seen, r.observation.body.seen;
    var run, authority, point :=
      (o: Observation) => o.runId, (o: Observation) => o.authorityId, (o: Observation) => (o.checkpointId, o.stateDigest);
    if RosterOf(a) != RosterOf(b) {
      assert Disagree(routes, RosterOf);
    } else if a.runId != b.runId {
      assert run(a) != run(b);
    } else if a.authorityId != b.authorityId {
      assert authority(a) != authority(b);
    } else {
      assert point(a) != point(b);
    }
  }

  /** What the loop has established about a prefix of the routes. */
  ghost predicate Collected(done: seq<Route>, expected: Option<Observation>, routeMap: map<string, Route>) {
    && (forall r :: r in done ==> LocallyValid(r))
    && (expected.None? <==> done == [])
    && (expected.Some? ==>
          && (exists q :: q in done && q.observation.body.seen == expected.value)
          && forall r :: r in done ==> Agree(r.observation.body.seen, expected.value))
    && Distinct(Peers(done))
    && routeMap.Keys == (set p | p in Peers(done))
    && (forall r :: r in done ==> r.peer in routeMap && routeMap[r.peer] == r)
  }

  lemma PeersSnoc(done: seq<Route>, r: Route)
    ensures Peers(done + [r]) == Peers(done) + [r.peer]
  {
  }

  lemma CollectedSnoc(done: seq<Route>, expected: Option<Observation>, routeMap: map<string, Route>, r: Route)
    requires Collected(done, expected, routeMap) && LocallyValid(r) && r.peer !in routeMap
    requires expected.Some? ==> AgreementError(expected.value, r.observation.body.seen) == None
    ensures Collected(done + [r], Some(r.observation.body.seen), routeMap[r.peer := r])
  {
    hide LocallyValid, RosterOf, Peers, Agree, Distinct;
    PeersSnoc(done, r);
    AgreementSnoc(done, expected, routeMap, r);
    assert r in done + [r];
    DistinctToken(Peers(done), r.peer);
    forall q | q in done ensures q.peer != r.peer && routeMap[r.peer := r][q.peer] == q {
    }
  }

  lemma DistinctToken(s: seq<string>, x: string)
    requires Distinct(s) && x !in s
    ensures Distinct(s + [x])
  {
  }

  lemma AgreementSnoc(done: seq<Route>, expected: Option<Observation>, routeMap: map<string, Route>, r: Route)
    requires Collected(done, expected, routeMap) && LocallyValid(r)
    requires expected.Some? ==> AgreementError(expected.value, r.observation.body.seen) == None
    ensures r.observation.body.ObservationBody?
    ensures forall q :: q in done + [r] ==> q.observation.body.ObservationBody? && Agree(q.observation.body.seen, r.observation.body.seen)
  {
    hide LocallyValid, RosterOf, Peers, Distinct;
    LocallyValidShape(r);
    forall q | q in done + [r] ensures q.observation.body.ObservationBody? && Agree(q.observation.body.seen, r.observation.body.seen) {
      LocallyValidShape(q);
      if q in done {
        assert Agree(q.observation.body.seen, expected.value);
      }
    }
  }

  lemma CollectedForms(routes: seq<Route>, expected: Option<Observation>, routeMap: map<string, Route>)
    requires Collected(routes, expected, routeMap) && 2 <= |routes| <= 4
    ensures expected.Some?
    ensures FormsCohort(routes) <==> RosterOf(expected.value) == routeMap.Keys
    ensures FormsCohort(routes) ==> IsCohortOf(Cohort(routeMap, routeMap.Keys), routes)
    ensures RosterOf(expected.value) != routeMap.Keys ==> Justified(routes, RosterMismatch)
  {
    hide LocallyValid, RosterOf, Peers, Distinct;
    forall r | r in routes ensures r.observation.body.ObservationBody? {
      LocallyValidShape(r);
    }
    var q :| q in routes && q.observation.body.seen == expected.value;
  }

  /** `CoopNativeCohort::validate`. */
  method Validate(routes: seq<Route>) returns (r: Result<Cohort, CohortError>)
    ensures r.Ok? <==> FormsCohort(routes)
    ensures r.Ok? ==> IsCohortOf(r.value, routes)
    ensures r.Err? ==> Justified(routes, r.error)
  {
    hide *;
    if !(2 <= |routes| <= 4) {
      WrongCount(routes);
      return Err(ParticipantCount);
    }
    var routeMap: map<string, Route> := map[];
    var expected: Option<Observation> := None;
    NothingCollected();
    for i := 0 to |routes|
      invariant Collected(routes[..i], expected, routeMap)
    {
      var route := routes[i];
      RouteErrorMeans(route);
      var error := RouteError(route);
      if error.Some? {
        InvalidRoute(routes, route);
        RouteErrorJustified(routes, route);
        return Err(error.value);
      }
      LocallyValidShape(route);
      var observation := route.observation.body.seen;
      if expected.Some? {
        var mismatch := AgreementError(expected.value, observation);
        if mismatch.Some? {
          Mismatch(routes, i, expected, routeMap);
          return Err(mismatch.value);
        }
      }
      if route.peer in routeMap {
        RepeatedPeer(routes, i, expected, routeMap);
        return Err(DuplicateRoute);
      }
      CollectedSnoc(routes[..i], expected, routeMap, route);
      assert routes[..i + 1] == routes[..i] + [route];
      expected := Some(observation);
      routeMap := routeMap[route.peer := route];
    }
    assert routes[..|routes|] == routes;
    CollectedForms(routes, expected, routeMap);
    var roster := RosterOf(expected.value);
    if |roster| != |routeMap.Keys| || roster != routeMap.Keys {
      return Err(RosterMismatch);
    }
    return Ok(Cohort(routeMap, roster));
  }

  lemma LocallyValidShape(r: Route)
    requires LocallyValid(r)
    ensures r.observation.body.ObservationBody? && r.catalog.body.CatalogResponse?
  {
  }

  lemma NothingCollected()
    ensures Collected([], None, map[])
  {
  }

  lemma WrongCount(routes: seq<Route>)
    requires !(2 <= |routes| <= 4)
    ensures !FormsCohort(routes) && Justified(routes, ParticipantCount)
  {
  }

  lemma InvalidRoute(routes: seq<Route>, r: Route)
    requires r in routes && !LocallyValid(r)
    ensures !FormsCohort(routes)
  {
  }

  lemma DisagreeingRoutes(routes: seq<Route>, q: Route, r: Route)
    requires q in routes && r in routes && q.observation.body.ObservationBody? && r.observation.body.ObservationBody?
    requires AgreementError(q.observation.body.seen, r.observation.body.seen).Some?
    ensures !FormsCohort(routes)
  {
    hide LocallyValid, RosterOf;
  }

  lemma Mismatch(routes: seq<Route>, i: nat, expected: Option<Observation>, routeMap: map<string, Route>)
    requires i < |routes| && Collected(routes[..i], expected, routeMap) && expected.Some? && LocallyValid(routes[i])
    requires routes[i].observation.body.ObservationBody?
    requires AgreementError(expected.value, routes[i].observation.body.seen).Some?
    ensures !FormsCohort(routes)
    ensures Justified(routes, AgreementError(expected.value, routes[i].observation.body.seen).value)
  {
    hide LocallyValid, RosterOf, AgreementError, FormsCohort, Justified, Peers, Distinct;
    forall q | q in routes[..i] ensures q.observation.body.ObservationBody? {
      LocallyValidShape(q);
    }
    var q :| q in routes[..i] && q.observation.body.seen == expected.value;
    DisagreeingRoutes(routes, q, routes[i]);
    AgreementErrorJustified(routes, q, routes[i]);
  }

  lemma RepeatedPeer(routes: seq<Route>, i: nat, expected: Option<Observation>, routeMap: map<string, Route>)
    requires i < |routes| && Collected(routes[..i], expected, routeMap) && routes[i].peer in routeMap
    ensures !FormsCohort(routes) && Justified(routes, DuplicateRoute)
  {
    CollectedPeers(routes[..i], expected, routeMap);
    hide Collected, FormsCohort, RouteError, RosterOf, Disagree;
    RepeatedIndex(routes, i);
    if FormsCohort(routes) {
      FormsDistinct(routes);
      assert false;
    }
  }

  lemma FormsDistinct(routes: seq<Route>)
    requires FormsCohort(routes)
    ensures Distinct(Peers(routes))
  {
  }

  lemma CollectedPeers(routes: seq<Route>, expected: Option<Observation>, routeMap: map<string, Route>)
    requires Collected(routes, expected, routeMap)
    ensures routeMap.Keys == set p | p in Peers(routes)
  {
    hide LocallyValid, RosterOf, Agree, Peers;
  }

  lemma RepeatedIndex(routes: seq<Route>, i: nat)
    requires i < |routes| && routes[i].peer in Peers(routes[..i])
    ensures !Distinct(Peers(routes))
  {
    var j :| 0 <= j < i && Peers(routes[..i])[j] == routes[i].peer;
    assert Peers(routes)[j] == routes[j].peer == routes[..i][j].peer;
    assert Peers(routes)[i] == routes[i].peer;
  }

  // ---------- Order does not matter ----------

  lemma {:induction false} PeersIn(routes: seq<Route>, p: string)
    ensures p in Peers(routes) <==> exists r :: r in routes && r.peer == p
  {
    if p in Peers(routes) {
      var i :| 0 <= i < |routes| && Peers(routes)[i] == p;
      assert routes[i] in routes;
    }
    if r :| r in routes && r.peer == p {
      var i :| 0 <= i < |routes| && routes[i] == r;
      assert Peers(routes)[i] == p;
    }
  }

  /** Peers are distinct exactly when routes are, and different routes have different peers. */
  lemma DistinctPeersMeans(routes: seq<Route>)
    ensures Distinct(Peers(routes)) <==>
            Distinct(routes) && forall r, q :: r in routes && q in routes && r != q ==> r.peer != q.peer
  {
    var peers := Peers(routes);
    if Distinct(peers) {
      forall r, q | r in routes && q in routes && r != q ensures r.peer != q.peer {
        var i :| 0 <= i < |routes| && routes[i] == r;
        var j :| 0 <= j < |routes| && routes[j] == q;
        assert peers[i] == r.peer && peers[j] == q.peer;
        assert i < j || j < i;
      }
      forall i, j | 0 <= i < j < |routes| ensures routes[i] != routes[j] {
        assert peers[i] != peers[j];
      }
    }
  }

  lemma FormsCohortPermutes(a: seq<Route>, b: seq<Route>)
    requires multiset(a) == multiset(b) && FormsCohort(a)
    ensures FormsCohort(b)
    ensures (set p | p in Peers(a)) == (set p | p in Peers(b))
  {
    hide LocallyValid, Agree, RosterOf;
    SameMembers(a, b);
    assert |a| == |multiset(a)| == |multiset(b)| == |b|;
    DistinctPeersMeans(a);
    DistinctPermutes(a, b);
    DistinctPeersMeans(b);
    forall p ensures p in Peers(a) <==> p in Peers(b) {
      PeersIn(a, p);
      PeersIn(b, p);
    }
    assert (set p | p in Peers(a)) == (set p | p in Peers(b));
  }

  lemma CohortIsUnique(c: Cohort, d: Cohort, routes: seq<Route>)
    requires IsCohortOf(c, routes) && IsCohortOf(d, routes)
    ensures c == d
  {
    forall p | p in c.routes ensures c.routes[p] == d.routes[p] {
      PeersIn(routes, p);
    }
    assert c.routes == d.routes;
  }

  /** Validation succeeds for an arrangement of the routes exactly when it does for any other, with one cohort. */
  lemma CohortIgnoresOrder(a: seq<Route>, b: seq<Route>, c: Cohort, d: Cohort)
    requires multiset(a) == multiset(b)
    ensures FormsCohort(a) <==> FormsCohort(b)
    ensures FormsCohort(a) && IsCohortOf(c, a) && IsCohortOf(d, b) ==> c == d
  {
    hide FormsCohort, Peers;
    if FormsCohort(a) {
      FormsCohortPermutes(a, b);
      if IsCohortOf(c, a) && IsCohortOf(d, b) {
        SameMembers(a, b);
        assert IsCohortOf(d, a);
        CohortIsUnique(c, d, a);
      }
    }
    if FormsCohort(b) {
      FormsCohortPermutes(b, a);
    }
  }

  // ---------- Scheduling ----------

  /** `schedule_local_action`. */
  function ScheduleLocalAction(c: Cohort, peer: string, request: Envelope): Result<Operation, CohortError> {
    if peer !in c.routes then Err(LocalPeerMismatch)
    else if !ProfileOk(request) then Err(ProfileMismatch)
    else if !request.body.LocalActionRequest? then Err(ActionNotCurrent)
    else
      var route, action := c.routes[peer], request.body;
      if !SameFence(route.observation.header, request.header) || action.actor != peer then Err(ActionNotCurrent)
      else if ObservationOf(route.observation).None? then Err(RouteShape)
      else if action.generation != ObservationOf(route.observation).value.hostGeneration then Err(ActionNotCurrent)
      else if !route.catalog.body.CatalogResponse? then Err(RouteShape)
      else
        var catalog := route.catalog.body.catalog;
        if catalog.hostGeneration != action.generation || action.action !in catalog.actions then Err(ActionNotCurrent)
        else
          var h := request.header;
          Ok(Operation(peer, action.operationId, h.instanceId, h.sessionId, h.leaseId, h.leaseEpoch, action.generation))
  }

  // ---------- Settlement ----------

  predicate OnOperationFence(op: Operation, e: Envelope) {
    && e.header.instanceId == op.instanceId && e.header.sessionId == op.sessionId
    && e.header.leaseId == op.leaseId && e.header.leaseEpoch == op.leaseEpoch
    && OperationOf(e) == Some(op.operationId)
  }

  predicate SettledEvidence(op: Operation, response: Body)
    requires response.EffectResponse?
  {
    && response.effect.Some? && response.status == Settled && response.proof.status == Settled
    && response.operationId == op.operationId && response.proof.operationId == op.operationId
    && response.effect.value.operationId == op.operationId
    && response.proof.beforeGeneration == op.expectedGeneration
    && response.proof.afterGeneration == Some(response.seen.hostGeneration)
    && response.seen.hostGeneration > op.expectedGeneration
    && response.effect.value.fromGeneration == op.expectedGeneration
    && response.effect.value.toGeneration == response.seen.hostGeneration
  }

  /** One refreshed observation belongs to a route of the cohort and reports the settled state. */
  predicate Refreshed(c: Cohort, settled: Observation, e: Envelope) {
    && ProfileOk(e) && e.body.ObservationBody? && Ready(e.body.seen)
    && SoleLocal(e.body.seen).Some? && SoleLocal(e.body.seen).value in c.routes
    && SameFence(c.routes[SoleLocal(e.body.seen).value].observation.header, e.header)
    && e.body.seen.runId == settled.runId && e.body.seen.authorityId == settled.authorityId
    && e.body.seen.checkpointId == settled.checkpointId && e.body.seen.stateDigest == settled.stateDigest
    && RosterOf(e.body.seen) == c.roster
  }

  function LocalOf(e: Envelope): string {
    if e.body.ObservationBody? && SoleLocal(e.body.seen).Some? then SoleLocal(e.body.seen).value else ""
  }

  function LocalsOf(observations: seq<Envelope>): (locals: seq<string>)
    ensures |locals| == |observations|
    ensures forall i :: 0 <= i < |observations| ==> locals[i] == LocalOf(observations[i])
  {
    if observations == [] then [] else [LocalOf(observations[0])] + LocalsOf(observations[1..])
  }

  predicate ChecksumMatches(settled: Observation, o: Observation) {
    settled.nativeChecksum.Some? && o.checksumStatus == Matched && o.nativeChecksum == settled.nativeChecksum
  }

  /** The whole roster, each peer once, reports the settled state and its matched checksum. */
  ghost predicate Converged(c: Cohort, observations: seq<Envelope>, settled: Observation) {
    && |observations| == |c.routes|
    && (forall e :: e in observations ==> Refreshed(c, settled, e))
    && Distinct(LocalsOf(observations))
    && (set p | p in LocalsOf(observations)) == c.roster
    && settled.nativeChecksum.Some? && settled.checksumStatus == Matched
    && forall e :: e in observations ==> ChecksumMatches(settled, e.body.seen)
  }

  function RefreshedError(c: Cohort, settled: Observation, e: Envelope): Option<CohortError> {
    if !ProfileOk(e) then Some(ProfileMismatch)
    else if !e.body.ObservationBody? || ReadyError(e.body.seen).Some? then Some(RosterNotConverged)
    else
      var o, local := e.body.seen, SoleLocal(e.body.seen);
      if local.None? || local.value !in c.routes then Some(RosterNotConverged)
      else if !SameFence(c.routes[local.value].observation.header, e.header) || o.runId != settled.runId
              || o.authorityId != settled.authorityId || o.checkpointId != settled.checkpointId
              || o.stateDigest != settled.stateDigest || RosterOf(o) != c.roster then Some(RosterNotConverged)
      else None
  }

  lemma RefreshedErrorMeans(c: Cohort, settled: Observation, e: Envelope)
    ensures RefreshedError(c, settled, e) == None <==> Refreshed(c, settled, e)
    ensures RefreshedError(c, settled, e) == Some(ProfileMismatch) <==> !ProfileOk(e)
  {
    if e.body.ObservationBody? {
      ReadyErrorMeans(e.body.seen);
    }
  }

  /** What the loop has gathered once it has accepted `observations`. */
  ghost predicate Gathered(c: Cohort, settled: Observation, observations: seq<Envelope>, byLocalPeer: map<string, Observation>) {
    && AllRefreshed(c, settled, observations)
    && Distinct(LocalsOf(observations))
    && byLocalPeer.Keys == Members(LocalsOf(observations))
    && Indexed(observations, byLocalPeer)
  }

  ghost predicate AllRefreshed(c: Cohort, settled: Observation, observations: seq<Envelope>) {
    forall e :: e in observations ==> Refreshed(c, settled, e)
  }

  function Members(tokens: seq<string>): set<string> {
    set p | p in tokens
  }

  ghost predicate Indexed(observations: seq<Envelope>, byLocalPeer: map<string, Observation>) {
    forall e :: e in observations ==> e.body.ObservationBody? && LocalOf(e) in byLocalPeer && byLocalPeer[LocalOf(e)] == e.body.seen
  }

  lemma IndexedSnoc(observations: seq<Envelope>, byLocalPeer: map<string, Observation>, e: Envelope)
    requires Indexed(observations, byLocalPeer) && e.body.ObservationBody? && LocalOf(e) !in byLocalPeer
    ensures Indexed(observations + [e], byLocalPeer[LocalOf(e) := e.body.seen])
  {
    hide LocalOf;
  }

  lemma NothingGathered(c: Cohort, settled: Observation)
    ensures Gathered(c, settled, [], map[])
  {
    hide Refreshed, LocalOf;
    assert LocalsOf([]) == [];
  }

  lemma LocalsSnoc(observations: seq<Envelope>, e: Envelope)
    ensures LocalsOf(observations + [e]) == LocalsOf(observations) + [LocalOf(e)]
  {
    hide LocalOf;
    var all := LocalsOf(observations + [e]);
    assert forall i :: 0 <= i < |observations| ==> all[i] == LocalOf((observations + [e])[i]);
  }

  lemma RefreshedSnoc(c: Cohort, settled: Observation, observations: seq<Envelope>, e: Envelope)
    requires AllRefreshed(c, settled, observations) && Refreshed(c, settled, e)
    ensures AllRefreshed(c, settled, observations + [e])
  {
    hide Refreshed;
  }

  lemma GatheredSnoc(c: Cohort, settled: Observation, observations: seq<Envelope>, byLocalPeer: map<string, Observation>, e: Envelope)
    requires Gathered(c, settled, observations, byLocalPeer) && Refreshed(c, settled, e) && LocalOf(e) !in byLocalPeer
    ensures e.body.ObservationBody?
    ensures Gathered(c, settled, observations + [e], byLocalPeer[LocalOf(e) := e.body.seen])
  {
    hide Refreshed, AllRefreshed, LocalOf, LocalsOf, Distinct, Indexed, Members;
    RefreshedShape(c, settled, e);
    RefreshedSnoc(c, settled, observations, e);
    LocalsSnoc(observations, e);
    TokensSnoc(LocalsOf(observations), LocalOf(e));
    IndexedSnoc(observations, byLocalPeer, e);
  }

  lemma TokensSnoc(s: seq<string>, x: string)
    requires Distinct(s) && x !in Members(s)
    ensures Distinct(s + [x]) && Members(s + [x]) == Members(s) + {x}
  {
  }

  /** What is asked of the map after the loop. */
  predicate WholeRosterMatches(c: Cohort, settled: Observation, byLocalPeer: map<string, Observation>) {
    && byLocalPeer.Keys == c.roster && settled.nativeChecksum.Some? && settled.checksumStatus == Matched
    && forall p :: p in byLocalPeer ==> ChecksumMatches(settled, byLocalPeer[p])
  }

  lemma GatheredConverges(c: Cohort, settled: Observation, observations: seq<Envelope>, byLocalPeer: map<string, Observation>)
    requires Gathered(c, settled, observations, byLocalPeer) && |observations| == |c.routes|
    ensures Converged(c, observations, settled) <==> WholeRosterMatches(c, settled, byLocalPeer)
  {
    hide Refreshed, LocalOf, ChecksumMatches;
    assert Members(LocalsOf(observations)) == set p | p in LocalsOf(observations);
    forall p | p in byLocalPeer
      ensures exists e :: e in observations && LocalOf(e) == p
    {
      assert p in LocalsOf(observations);
      LocalsIn(observations, p);
    }
  }

  lemma ConvergedPrefix(c: Cohort, settled: Observation, observations: seq<Envelope>, byLocalPeer: map<string, Observation>, i: nat)
    requires i < |observations| && Gathered(c, settled, observations[..i], byLocalPeer)
    requires !Refreshed(c, settled, observations[i]) || LocalOf(observations[i]) in byLocalPeer
    ensures !Converged(c, observations, settled)
  {
    hide Refreshed, LocalOf, ChecksumMatches;
    assert observations[i] in observations;
    if LocalOf(observations[i]) in byLocalPeer {
      assert LocalOf(observations[i]) in LocalsOf(observations[..i]);
      var j :| 0 <= j < i && LocalsOf(observations[..i])[j] == LocalOf(observations[i]);
      assert LocalsOf(observations)[j] == LocalsOf(observations)[i];
    }
  }

  lemma RefusedAt(c: Cohort, settled: Observation, observations: seq<Envelope>, byLocalPeer: map<string, Observation>, i: nat)
    requires i < |observations| && Gathered(c, settled, observations[..i], byLocalPeer)
    requires RefreshedError(c, settled, observations[i]).Some?
    ensures !Converged(c, observations, settled)
    ensures var error := RefreshedError(c, settled, observations[i]).value;
            error == RosterNotConverged || (error == ProfileMismatch && exists e :: e in observations && !ProfileOk(e))
  {
    hide *;
    RefreshedErrorKinds(c, settled, observations[i]);
    RefreshedErrorMeans(c, settled, observations[i]);
    ConvergedPrefix(c, settled, observations, byLocalPeer, i);
    assert observations[i] in observations;
  }

  /** One turn of the loop: a refusal, or the map with the observation under its local peer. */
  function Gather(c: Cohort, settled: Observation, byLocalPeer: map<string, Observation>, e: Envelope)
    : Result<map<string, Observation>, CohortError>
  {
    var error := RefreshedError(c, settled, e);
    if error.Some? then Err(error.value)
    else if LocalOf(e) in byLocalPeer || !e.body.ObservationBody? then Err(RosterNotConverged)
    else Ok(byLocalPeer[LocalOf(e) := e.body.seen])
  }

  ghost predicate ConvergenceError(observations: seq<Envelope>, error: CohortError) {
    error == RosterNotConverged || (error == ProfileMismatch && exists e :: e in observations && !ProfileOk(e))
  }

  lemma GatherStep(c: Cohort, settled: Observation, observations: seq<Envelope>, byLocalPeer: map<string, Observation>, i: nat)
    requires i < |observations| && Gathered(c, settled, observations[..i], byLocalPeer)
    ensures match Gather(c, settled, byLocalPeer, observations[i])
            case Ok(next) => Gathered(c, settled, observations[..i + 1], next)
            case Err(error) => !Converged(c, observations, settled) && ConvergenceError(observations, error)
  {
    hide Gathered, Converged, RefreshedError, Refreshed, LocalOf, ProfileOk;
    var e := observations[i];
    assert observations[..i + 1] == observations[..i] + [e];
    if RefreshedError(c, settled, e).Some? {
      RefusedAt(c, settled, observations, byLocalPeer, i);
    } else {
      RefreshedErrorMeans(c, settled, e);
      RefreshedShape(c, settled, e);
      if LocalOf(e) in byLocalPeer {
        ConvergedPrefix(c, settled, observations, byLocalPeer, i);
      } else {
        GatheredSnoc(c, settled, observations[..i], byLocalPeer, e);
      }
    }
  }

  /** `validate_converged_roster`. */
  method ValidateConvergedRoster(c: Cohort, observations: seq<Envelope>, settled: Observation)
    returns (r: Result<(), CohortError>)
    ensures r.Ok? <==> Converged(c, observations, settled)
    ensures r.Err? ==> ConvergenceError(observations, r.error)
  {
    if |observations| != |c.routes| {
      return Err(RosterNotConverged);
    }
    NothingGathered(c, settled);
    hide *;
    var byLocalPeer: map<string, Observation> := map[];
    assert observations[..0] == [];
    for i := 0 to |observations|
      invariant Gathered(c, settled, observations[..i], byLocalPeer)
    {
      GatherStep(c, settled, observations, byLocalPeer, i);
      var next := Gather(c, settled, byLocalPeer, observations[i]);
      if next.Err? {
        return Err(next.error);
      }
      byLocalPeer := next.value;
    }
    assert observations[..|observations|] == observations;
    GatheredConverges(c, settled, observations, byLocalPeer);
    if !WholeRosterMatches(c, settled, byLocalPeer) {
      NotConvergedIsAllowed(observations);
      return Err(RosterNotConverged);
    }
    return Ok(());
  }

  lemma NotConvergedIsAllowed(observations: seq<Envelope>)
    ensures ConvergenceError(observations, RosterNotConverged)
  {
  }

  lemma RefreshedShape(c: Cohort, settled: Observation, e: Envelope)
    requires Refreshed(c, settled, e)
    ensures e.body.ObservationBody?
  {
  }

  lemma RefreshedErrorKinds(c: Cohort, settled: Observation, e: Envelope)
    requires RefreshedError(c, settled, e).Some?
    ensures RefreshedError(c, settled, e).value in {ProfileMismatch, RosterNotConverged}
  {
  }

  predicate OnOriginalRoute(c: Cohort, op: Operation, peer: string, response: Envelope) {
    && peer in c.routes && op.routePeer == peer
    && OnOperationFence(op, response) && SameFence(c.routes[peer].observation.header, response.header)
  }

  /** The responses and observations that settle an operation. */
  ghost predicate Settles(c: Cohort, op: Operation, peer: string, response: Envelope, observations: seq<Envelope>) {
    && OnOriginalRoute(c, op, peer, response)
    && response.body.EffectResponse? && response.body.effect.Some?
    && Ready(response.body.seen) && RosterOf(response.body.seen) == c.roster
    && SettledEvidence(op, response.body)
    && Converged(c, observations, response.body.seen)
  }

  /** `validate_settlement`. */
  method ValidateSettlement(c: Cohort, op: Operation, peer: string, response: Envelope, observations: seq<Envelope>)
    returns (r: Result<(), CohortError>)
    ensures r.Ok? <==> Settles(c, op, peer, response, observations)
    ensures r == Err(SettlementNotOriginalRoute) <==> !OnOriginalRoute(c, op, peer, response)
    ensures r == Err(SettlementNotSettled) <==> OnOriginalRoute(c, op, peer, response) && !response.body.EffectResponse?
    ensures r == Err(SettlementEvidence) ==>
              && response.body.EffectResponse?
              && (response.body.effect.None? || !Ready(response.body.seen) || !SettledEvidence(op, response.body))
    ensures r == Err(RosterNotConverged) ==>
              && response.body.EffectResponse?
              && (RosterOf(response.body.seen) != c.roster || !Converged(c, observations, response.body.seen))
  {
    hide Converged, RosterOf, ReadyError, Ready;
    if peer !in c.routes {
      return Err(SettlementNotOriginalRoute);
    }
    var route := c.routes[peer];
    if op.routePeer != peer || !OnOperationFence(op, response) || !SameFence(route.observation.header, response.header) {
      return Err(SettlementNotOriginalRoute);
    }
    if !response.body.EffectResponse? {
      return Err(SettlementNotSettled);
    }
    var result := response.body;
    if result.effect.None? {
      return Err(SettlementEvidence);
    }
    ReadyErrorMeans(result.seen);
    if ReadyError(result.seen).Some? {
      return Err(SettlementEvidence);
    }
    if RosterOf(result.seen) != c.roster {
      return Err(RosterNotConverged);
    }
    if !SettledEvidence(op, result) {
      return Err(SettlementEvidence);
    }
    r := ValidateConvergedRoster(c, observations, result.seen);
  }

  // ---------- Schedule, then settle ----------

  /** Exactly one observation comes from `p`, and it reports the settled state. */
  ghost predicate HeardOnceFrom(p: string, observations: seq<Envelope>, settled: Observation) {
    exists i :: 0 <= i < |observations| && LocalOf(observations[i]) == p && observations[i].body.ObservationBody?
      && (forall j :: 0 <= j < |observations| && LocalOf(observations[j]) == p ==> j == i)
      && var o := observations[i].body.seen;
         && o.runId == settled.runId && o.authorityId == settled.authorityId
         && o.checkpointId == settled.checkpointId && o.stateDigest == settled.stateDigest
         && o.checksumStatus == Matched && o.nativeChecksum == settled.nativeChecksum
  }

  lemma ConvergedHearsAll(c: Cohort, observations: seq<Envelope>, settled: Observation, p: string)
    requires Converged(c, observations, settled) && p in c.roster
    ensures HeardOnceFrom(p, observations, settled)
  {
    hide Ready, ProfileOk, RosterOf, SoleLocal;
    var locals := LocalsOf(observations);
    assert p in locals;
    var i :| 0 <= i < |locals| && locals[i] == p;
    assert observations[i] in observations;
    assert Refreshed(c, settled, observations[i]);
    forall j | 0 <= j < |observations| && LocalOf(observations[j]) == p ensures j == i {
      assert locals[j] == p;
    }
  }

  /**
   An operation that a cohort scheduled and that later settles was in the current catalog, moved the host
   strictly past that catalog's generation, and every roster peer confirmed the settled state exactly once.
   */
  lemma ScheduleThenSettle(routes: seq<Route>, c: Cohort, peer: string, request: Envelope, op: Operation,
                           other: string, response: Envelope, observations: seq<Envelope>)
    requires FormsCohort(routes) && IsCohortOf(c, routes)
    requires ScheduleLocalAction(c, peer, request) == Ok(op)
    requires Settles(c, op, other, response, observations)
    ensures other == peer && peer in c.roster
    ensures request.body.LocalActionRequest? && c.routes[peer].catalog.body.CatalogResponse?
    ensures var catalog := c.routes[peer].catalog.body.catalog;
            && request.body.action in catalog.actions && catalog.actorPeer == peer
            && response.body.seen.hostGeneration > catalog.hostGeneration
    ensures OperationOf(response) == OperationOf(request) && SameFence(response.header, request.header)
    ensures |observations| == |c.roster|
    ensures forall p :: p in c.roster ==> HeardOnceFrom(p, observations, response.body.seen)
  {
    Scheduled(routes, c, peer, request, op);
    SettledFacts(c, op, other, response, observations);
    hide *;
    forall p | p in c.roster ensures HeardOnceFrom(p, observations, response.body.seen) {
      ConvergedHearsAll(c, observations, response.body.seen, p);
    }
    ConvergedCount(routes, c, observations, response.body.seen);
  }

  lemma Scheduled(routes: seq<Route>, c: Cohort, peer: string, request: Envelope, op: Operation)
    requires FormsCohort(routes) && IsCohortOf(c, routes)
    requires ScheduleLocalAction(c, peer, request) == Ok(op)
    ensures peer in c.routes && peer in c.roster && op.routePeer == peer
    ensures request.body.LocalActionRequest? && c.routes[peer].catalog.body.CatalogResponse?
    ensures var catalog := c.routes[peer].catalog.body.catalog;
            request.body.action in catalog.actions && catalog.actorPeer == peer && catalog.hostGeneration == op.expectedGeneration
    ensures OperationOf(request) == Some(op.operationId) && SameFence(c.routes[peer].observation.header, request.header)
  {
    ScheduledAction(c, peer, request, op);
    hide *;
    ScheduledRoute(routes, c, peer);
  }

  lemma ScheduledAction(c: Cohort, peer: string, request: Envelope, op: Operation)
    requires ScheduleLocalAction(c, peer, request) == Ok(op)
    ensures peer in c.routes && op.routePeer == peer
    ensures request.body.LocalActionRequest? && c.routes[peer].catalog.body.CatalogResponse?
    ensures var catalog := c.routes[peer].catalog.body.catalog;
            request.body.action in catalog.actions && catalog.hostGeneration == op.expectedGeneration
    ensures OperationOf(request) == Some(op.operationId) && SameFence(c.routes[peer].observation.header, request.header)
  {
    hide ProfileOk;
  }

  lemma SettledFacts(c: Cohort, op: Operation, peer: string, response: Envelope, observations: seq<Envelope>)
    requires Settles(c, op, peer, response, observations)
    ensures peer in c.routes && op.routePeer == peer
    ensures OperationOf(response) == Some(op.operationId) && SameFence(c.routes[peer].observation.header, response.header)
    ensures response.body.EffectResponse? && response.body.seen.hostGeneration > op.expectedGeneration
    ensures Converged(c, observations, response.body.seen)
  {
    hide Converged, Ready, RosterOf;
  }

  lemma ScheduledRoute(routes: seq<Route>, c: Cohort, peer: string)
    requires FormsCohort(routes) && IsCohortOf(c, routes) && peer in c.routes
    ensures peer in c.roster && LocallyValid(c.routes[peer]) && c.routes[peer].peer == peer
    ensures c.routes[peer].catalog.body.CatalogResponse? && c.routes[peer].catalog.body.catalog.actorPeer == peer
  {
    hide SoleLocal, Ready, RosterOf, Agree;
    PeersIn(routes, peer);
  }

  lemma ConvergedCount(routes: seq<Route>, c: Cohort, observations: seq<Envelope>, settled: Observation)
    requires IsCohortOf(c, routes) && Converged(c, observations, settled)
    ensures |observations| == |c.roster|
  {
    assert |c.routes| == |c.routes.Keys|;
  }

  /** Settlement does not depend on the order in which the observations arrive. */
  lemma SettlementIgnoresOrder(c: Cohort, op: Operation, peer: string, response: Envelope, a: seq<Envelope>, b: seq<Envelope>)
    requires multiset(a) == multiset(b) && Settles(c, op, peer, response, a)
    ensures Settles(c, op, peer, response, b)
  {
    hide Converged, Ready, RosterOf, SettledEvidence, OnOperationFence, SameFence;
    ConvergedPermutes(c, a, b, response.body.seen);
  }

  lemma ConvergedPermutes(c: Cohort, a: seq<Envelope>, b: seq<Envelope>, settled: Observation)
    requires multiset(a) == multiset(b) && Converged(c, a, settled)
    ensures Converged(c, b, settled)
  {
    hide Refreshed, ChecksumMatches, LocalsOf, Distinct;
    SameMembers(a, b);
    assert |a| == |multiset(a)| == |multiset(b)| == |b|;
    LocalsPermute(a, b);
  }

  lemma LocalsPermute(a: seq<Envelope>, b: seq<Envelope>)
    requires multiset(a) == multiset(b)
    ensures Distinct(LocalsOf(a)) ==> Distinct(LocalsOf(b))
    ensures (set p | p in LocalsOf(a)) == (set p | p in LocalsOf(b))
  {
    hide LocalsOf, Distinct;
    SameMembers(a, b);
    if Distinct(LocalsOf(a)) {
      DistinctLocalsMeans(a);
      DistinctPermutes(a, b);
      DistinctLocalsMeans(b);
    }
    forall p ensures p in LocalsOf(a) <==> p in LocalsOf(b) {
      LocalsIn(a, p);
      LocalsIn(b, p);
    }
  }

  lemma LocalsIn(observations: seq<Envelope>, p: string)
    ensures p in LocalsOf(observations) <==> exists e :: e in observations && LocalOf(e) == p
  {
    hide LocalOf;
    if p in LocalsOf(observations) {
      var i :| 0 <= i < |observations| && LocalsOf(observations)[i] == p;
      assert observations[i] in observations;
    }
    if e :| e in observations && LocalOf(e) == p {
      var i :| 0 <= i < |observations| && observations[i] == e;
      assert LocalsOf(observations)[i] == p;
    }
  }

  lemma DistinctLocalsMeans(observations: seq<Envelope>)
    ensures Distinct(LocalsOf(observations)) <==>
            Distinct(observations)
            && forall d, e :: d in observations && e in observations && d != e ==> LocalOf(d) != LocalOf(e)
  {
    hide LocalOf;
    var locals := LocalsOf(observations);
    if Distinct(locals) {
      forall d, e | d in observations && e in observations && d != e ensures LocalOf(d) != LocalOf(e) {
        var i :| 0 <= i < |observations| && observations[i] == d;
        var j :| 0 <= j < |observations| && observations[j] == e;
        assert locals[i] == LocalOf(d) && locals[j] == LocalOf(e);
        assert i < j || j < i;
      }
      forall i, j | 0 <= i < j < |observations| ensures observations[i] != observations[j] {
        assert locals[i] != locals[j];
      }
    }
  }
}

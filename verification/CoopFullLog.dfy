/** A run that fills the coordinator's log with observations and then delivers one envelope twice. */
module CoopFullLog {
  import opened Outcomes
  import opened Text
  import opened CoopWire
  import opened CoopCoordinator
  import opened CoopCoordinatorRuns

  function Member(token: string, role: PeerRole): Peer {
    Peer(token, "authority", role, true, "digest", Some("checkpoint"), true, false, false, "")
  }

  const SCENE := Observation(
    "epoch", "authority", "run", 0, "digest", "checkpoint", Matched, None, true, false, false,
    [Member("a", Local), Member("b", Ally)], "")

  /** The `n`-th observation; only its correlation tells it from the others. */
  function Note(n: nat): Envelope {
    Envelope(PROTOCOL_VERSION, SCHEMA_DIGEST, Header(Decimal(n), "instance", "session", "lease", 0), ObservationBody(SCENE))
  }

  function Setting(): Config {
    Config(Lineage("instance", "session", "run", None, None), false, (e: Envelope) => e.header.correlationId)
  }

  function Deliver(n: nat): Call {
    ConsumeFixture(Note(n), Ok(()))
  }

  function Deliveries(n: nat): seq<Call> {
    if n == 0 then [] else Deliveries(n - 1) + [Deliver(n - 1)]
  }

  lemma SceneParses()
    ensures ObservationParses(SCENE)
  {
    assert SCENE.peers[0].role == Local;
    assert SCENE.peers[0].token[0] != SCENE.peers[1].token[0];
  }

  lemma {:induction false} DeliveriesParse(n: nat)
    ensures AllParse(Deliveries(n))
  {
    SceneParses();
    hide ObservationParses;
    if n > 0 {
      DeliveriesParse(n - 1);
    }
  }

  lemma {:induction false} RunSnoc(cfg: Config, st: State, calls: seq<Call>, c: Call)
    ensures Run(cfg, st, calls + [c]) == Perform(cfg, Run(cfg, st, calls), c).0
    decreases |calls|
  {
    hide Perform;
    if calls == [] {
      assert calls + [c] == [c] && [c][1..] == [];
    } else {
      assert (calls + [c])[0] == calls[0] && (calls + [c])[1..] == calls[1..] + [c];
      RunSnoc(cfg, Perform(cfg, st, calls[0]).0, calls[1..], c);
    }
  }

  /** A note that was not seen is delivered, and recorded if there is room. */
  lemma NoteStep(st: State, n: nat)
    requires Decimal(n) !in st.seen
    ensures var st' := Perform(Setting(), st, Deliver(n)).0;
            && st'.delivered == st.delivered + [Note(n)]
            && (if |st.records| < MAX_LOG then |st'.records| == |st.records| + 1 && st'.seen.Keys == st.seen.Keys + {Decimal(n)}
                else st'.records == st.records && st'.seen == st.seen)
  {
    hide Decimal;
    assert LocalPeer(SCENE.peers) == Some("a");
    assert Admit(Note(n), None, Decimal(n)) == Ok((Observed, None));
    hide Admit, LocalPeer;
  }

  lemma {:induction false} Filled(n: nat)
    requires n <= MAX_LOG
    ensures var st := Run(Setting(), INITIAL, Deliveries(n));
            |st.records| == n && SeenBelow(st, n)
  {
    hide Perform, Decimal, Deliver;
    if n > 0 {
      Filled(n - 1);
      var st := Run(Setting(), INITIAL, Deliveries(n - 1));
      Unseen(st, n - 1);
      RunSnoc(Setting(), INITIAL, Deliveries(n - 1), Deliver(n - 1));
      NoteStep(st, n - 1);
      hide Run, Deliveries;
      assert NumberBelow(Decimal(n - 1), n);
    }
  }

  ghost predicate NumberBelow(d: string, n: nat) {
    exists i: nat :: i < n && d == Decimal(i)
  }

  ghost predicate SeenBelow(st: State, n: nat) {
    forall d :: d in st.seen ==> NumberBelow(d, n)
  }

  lemma Unseen(st: State, n: nat)
    requires SeenBelow(st, n)
    ensures Decimal(n) !in st.seen
  {
    hide Decimal;
    if Decimal(n) in st.seen {
      assert NumberBelow(Decimal(n), n);
      var i: nat :| i < n && Decimal(n) == Decimal(i);
      DecimalInjective(n, i);
      assert false;
    }
  }

  lemma FullThenTwice()
    ensures var full := Run(Setting(), INITIAL, Deliveries(MAX_LOG));
            var st := Run(Setting(), INITIAL, Deliveries(MAX_LOG) + [Deliver(MAX_LOG)] + [Deliver(MAX_LOG)]);
            |st.records| == MAX_LOG && st.delivered == full.delivered + [Note(MAX_LOG), Note(MAX_LOG)]
  {
    var cfg, c := Setting(), Deliver(MAX_LOG);
    Filled(MAX_LOG);
    hide Perform, Decimal, Deliver, Deliveries, Run, SeenBelow;
    var full := Run(cfg, INITIAL, Deliveries(MAX_LOG));
    Unseen(full, MAX_LOG);
    RunSnoc(cfg, INITIAL, Deliveries(MAX_LOG), c);
    RunSnoc(cfg, INITIAL, Deliveries(MAX_LOG) + [c], c);
    NoteStep(full, MAX_LOG);
    NoteStep(Perform(cfg, full, c).0, MAX_LOG);
    assert full.delivered + [Note(MAX_LOG)] + [Note(MAX_LOG)] == full.delivered + [Note(MAX_LOG), Note(MAX_LOG)];
  }

  /** 256 recorded observations, then one more twice: the port receives its digest twice. */
  lemma RetryAtFullLogDeliversTwice()
    ensures var calls := Deliveries(MAX_LOG) + [Deliver(MAX_LOG)] + [Deliver(MAX_LOG)];
            var st := Run(Setting(), INITIAL, calls);
            && AllParse(calls) && |st.records| == MAX_LOG
            && !DistinctDigests(Setting(), st.delivered) && st.delivered != NewEnvelopes(st.records)
  {
    var calls := Deliveries(MAX_LOG) + [Deliver(MAX_LOG)] + [Deliver(MAX_LOG)];
    ParsesTwice();
    FullThenTwice();
    hide *;
    ExactlyOnceDelivery(Setting(), calls);
    Repeated(Setting(), Run(Setting(), INITIAL, Deliveries(MAX_LOG)).delivered, Note(MAX_LOG));
  }

  lemma Repeated(cfg: Config, before: seq<Envelope>, e: Envelope)
    ensures !DistinctDigests(cfg, before + [e, e]) && DistinctDigests(cfg, [])
  {
    var all, n := before + [e, e], |before|;
    assert all[n] == e && all[n + 1] == e;
  }

  lemma ParsesTwice()
    ensures AllParse(Deliveries(MAX_LOG) + [Deliver(MAX_LOG)] + [Deliver(MAX_LOG)])
  {
    DeliveriesParse(MAX_LOG);
    SceneParses();
    hide ObservationParses, Deliveries;
  }
}

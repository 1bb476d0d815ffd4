/**
 How the two lookup loops end: what the agent's last turn decides, which actions can come out, and what the agent
 is shown along the way.
 */
module LookupDecisions {
  import opened Outcomes
  import opened Text
  import opened LookupSession
  import opened LookupReplay

  /** The binding has no snapshot, or one of the generation that the legal actions belong to. */
  predicate Current(binding: Binding, legal: Legal) {
    binding.snapshot == None || binding.snapshot.value.stateGeneration == Some(legal.generation)
  }

  /** The agent asked for something after what it was shown. */
  predicate Asks(agent: Agent, inputs: seq<Input>) {
    agent(inputs).Ok? && (agent(inputs).value.QueryTurn? || agent(inputs).value.ReadTurn?)
  }

  /** The inputs of a loop of `maxTurns` turns: counted down, with one binding and budget, and asked for one by one. */
  ghost predicate Paced(legal: Legal, agent: Agent, s: Session, maxTurns: nat, inputs: seq<Input>) {
    && |inputs| <= maxTurns
    && (inputs != [] ==> inputs[0].feedback == Start)
    && (forall i :: 0 <= i < |inputs| ==>
          && inputs[i].binding == s.binding && inputs[i].budget == s.budget && inputs[i].remaining == maxTurns - 1 - i
          && Current(inputs[i].binding, legal))
    && (forall i :: 0 < i < |inputs| ==> Asks(agent, inputs[..i]))
  }

  /** The result that a last turn other than a question gives. */
  ghost predicate Concludes(legal: Legal, agent: Agent, e: End) {
    && (forall a :: e.result == Ok(a) <==> e.inputs != [] && agent(e.inputs) == Ok(Decide(a)) && a in legal.actions)
    && (forall a :: e.inputs != [] && agent(e.inputs) == Ok(Decide(a)) && a !in legal.actions ==> e.result == Err(Invalid))
    && (forall error :: e.inputs != [] && agent(e.inputs) == Err(error) ==> e.result == Err(error))
  }

  lemma PacedSnoc(legal: Legal, agent: Agent, s: Session, maxTurns: nat, inputs: seq<Input>, input: Input)
    requires Paced(legal, agent, s, maxTurns, inputs) && |inputs| < maxTurns
    requires inputs == [] ==> input.feedback == Start
    requires inputs != [] ==> Asks(agent, inputs)
    requires input.binding == s.binding && input.budget == s.budget && input.remaining == maxTurns - 1 - |inputs|
    requires Current(s.binding, legal)
    ensures Paced(legal, agent, s, maxTurns, inputs + [input])
  {
    hide Asks, Current;
    var longer := inputs + [input];
    forall i | 0 < i < |longer| ensures Asks(agent, longer[..i]) {
      assert longer[..i] == inputs[..i];
      assert inputs[..|inputs|] == inputs;
    }
  }

  lemma QueryKeepsView(env: Env, s: Session, corpus: Corpus, operation: string, request: Option<Request>, port: PortReply)
    ensures var o := QueryPort(env, s, corpus, operation, request, port);
            o.session.binding == s.binding && o.session.budget == s.budget
  {
    hide AcceptSource, AdmitError, PageSequence;
  }

  // ---------- The live loop ----------

  lemma {:induction false} LiveConcludes(env: Env, legal: Legal, agent: Agent, port: Port, s: Session, corpus: Corpus,
                                         inputs: seq<Input>, feedback: Feedback, turns: nat, maxTurns: nat)
    requires Paced(legal, agent, s, maxTurns, inputs) && |inputs| + turns == maxTurns && Current(s.binding, legal)
    requires if inputs == [] then feedback == Start && turns > 0 else Asks(agent, inputs)
    ensures var e := LiveFrom(env, legal, agent, port, s, corpus, inputs, feedback, turns);
            && Concludes(legal, agent, e) && Paced(legal, agent, s, maxTurns, e.inputs) && e.inputs != []
            && (Asks(agent, e.inputs) ==> |e.inputs| == maxTurns && e.result == Err(Bounds))
    decreases turns
  {
    hide QueryPort, QueryFeedback, ReadFeedback, Paced;
    if turns > 0 {
      var shown := inputs + [Input(s.binding, feedback, turns - 1, s.budget)];
      PacedSnoc(legal, agent, s, maxTurns, inputs, Input(s.binding, feedback, turns - 1, s.budget));
      match agent(shown) {
        case Ok(QueryTurn(operation, request)) =>
          var o := QueryPort(env, s, corpus, operation, request, port(|inputs|));
          QueryKeepsView(env, s, corpus, operation, request, port(|inputs|));
          SamePace(legal, agent, s, o.session, maxTurns, shown);
          LiveConcludes(env, legal, agent, port, o.session, o.corpus, shown, QueryFeedback(o), turns - 1, maxTurns);
          SamePace(legal, agent, o.session, s, maxTurns,
                   LiveFrom(env, legal, agent, port, o.session, o.corpus, shown, QueryFeedback(o), turns - 1).inputs);
        case Ok(ReadTurn(ordinal, offset)) =>
          LiveConcludes(env, legal, agent, port, s, corpus, shown, ReadFeedback(env, s, corpus, ordinal, offset), turns - 1, maxTurns);
        case _ =>
      }
    }
  }

  lemma SamePace(legal: Legal, agent: Agent, s: Session, t: Session, maxTurns: nat, inputs: seq<Input>)
    requires s.binding == t.binding && s.budget == t.budget
    ensures Paced(legal, agent, s, maxTurns, inputs) ==> Paced(legal, agent, t, maxTurns, inputs)
  {
  }

  /**
   The live loop shows nothing when the bound is not 1 to 32 or the snapshot is of another generation. Otherwise its
   result is what the agent's last turn decides, if that action is legal; and a loop that still asks has used all turns.
   */
  lemma LiveOutcome(env: Env, legal: Legal, agent: Agent, port: Port, s: Session, corpus: Corpus, maxTurns: nat)
    ensures var e := Live(env, legal, agent, port, s, corpus, maxTurns);
            && Concludes(legal, agent, e) && Paced(legal, agent, s, maxTurns, e.inputs)
            && (e.inputs == [] <==> !(1 <= maxTurns <= 32) || !Current(s.binding, legal))
            && (e.inputs == [] ==> e.result == Err(if 1 <= maxTurns <= 32 then Reobserve else Bounds))
            && (e.inputs != [] && Asks(agent, e.inputs) ==> |e.inputs| == maxTurns && e.result == Err(Bounds))
  {
    if 1 <= maxTurns <= 32 && Current(s.binding, legal) {
      LiveConcludes(env, legal, agent, port, s, corpus, [], Start, maxTurns, maxTurns);
    }
  }

  // ---------- The replay loop ----------

  lemma ReplayKeepsView(env: Env, s: Session, corpus: Corpus, operation: string, request: Option<Request>)
    ensures var next := ReplayQuery(env, s, corpus, operation, request).0; next == s.(replayCursor := next.replayCursor)
  {
    hide Replay;
  }

  lemma {:induction false} ReplayConcludes(env: Env, legal: Legal, agent: Agent, s: Session, corpus: Corpus,
                                           inputs: seq<Input>, feedback: Feedback, turns: nat, maxTurns: nat)
    requires Paced(legal, agent, s, maxTurns, inputs) && |inputs| + turns == maxTurns && Current(s.binding, legal)
    requires if inputs == [] then feedback == Start && turns > 0 else Asks(agent, inputs)
    ensures var e := ReplayFrom(env, legal, agent, s, corpus, inputs, feedback, turns);
            && Concludes(legal, agent, e) && Paced(legal, agent, s, maxTurns, e.inputs) && e.inputs != []
            && e.corpus == corpus && e.session == s.(replayCursor := e.session.replayCursor)
    decreases turns
  {
    hide ReplayQuery, ReplayRead, Paced;
    if turns > 0 {
      var shown := inputs + [Input(s.binding, feedback, turns - 1, s.budget)];
      PacedSnoc(legal, agent, s, maxTurns, inputs, Input(s.binding, feedback, turns - 1, s.budget));
      match agent(shown) {
        case Ok(QueryTurn(operation, request)) =>
          ReplayKeepsView(env, s, corpus, operation, request);
          var (next, r) := ReplayQuery(env, s, corpus, operation, request);
          if r.Ok? {
            SamePace(legal, agent, s, next, maxTurns, shown);
            ReplayConcludes(env, legal, agent, next, corpus, shown, r.value, turns - 1, maxTurns);
            SamePace(legal, agent, next, s, maxTurns, ReplayFrom(env, legal, agent, next, corpus, shown, r.value, turns - 1).inputs);
          }
        case Ok(ReadTurn(ordinal, offset)) =>
          var r := ReplayRead(env, s, corpus, ordinal, offset);
          if r.Ok? {
            ReplayConcludes(env, legal, agent, s, corpus, shown, r.value, turns - 1, maxTurns);
          }
        case _ =>
      }
    }
  }

  /** The replay loop ends in the same way, and moves nothing but its cursor. */
  lemma ReplayOutcome(env: Env, legal: Legal, agent: Agent, s: Session, corpus: Corpus, maxTurns: nat)
    ensures var e := Replayed(env, legal, agent, s, corpus, maxTurns);
            && Concludes(legal, agent, e) && Paced(legal, agent, s, maxTurns, e.inputs)
            && (e.inputs == [] <==> !(1 <= maxTurns <= 32) || !Current(s.binding, legal))
            && (e.inputs == [] ==> e.result == Err(if 1 <= maxTurns <= 32 then Reobserve else Bounds))
            && e.corpus == corpus && e.session == s.(replayCursor := e.session.replayCursor)
  {
    if 1 <= maxTurns <= 32 && Current(s.binding, legal) {
      ReplayConcludes(env, legal, agent, s, corpus, [], Start, maxTurns, maxTurns);
    }
  }

  /** An action comes out of either loop only from the host's legal set, and only on a snapshot of its generation. */
  lemma OnlyLegalActions(env: Env, legal: Legal, agent: Agent, port: Port, s: Session, corpus: Corpus, maxTurns: nat)
    ensures forall e :: e in {Live(env, legal, agent, port, s, corpus, maxTurns), Replayed(env, legal, agent, s, corpus, maxTurns)} &&
                        e.result.Ok? ==>
              && e.inputs != [] && e.result.value in legal.actions && agent(e.inputs) == Ok(Decide(e.result.value))
              && (var shown := e.inputs[|e.inputs| - 1].binding.snapshot;
                  shown == None || shown.value.stateGeneration == Some(legal.generation))
  {
    hide Live, Replayed;
    LiveOutcome(env, legal, agent, port, s, corpus, maxTurns);
    ReplayOutcome(env, legal, agent, s, corpus, maxTurns);
  }
}

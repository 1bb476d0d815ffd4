/**
 Decision fencing across execution epochs: tokens are issued in the current epoch, settled at most once,
 and dropped when the epoch advances. Counters are unbounded here.
 */
module DecisionFence {
  import opened Outcomes
  import opened Sorting

  const MAX_OUTSTANDING_DECISIONS := 4096

  datatype FenceError = StaleEpoch | NonAdvancingEpoch | StaleDecision | UnknownDecision | Capacity

  datatype Token = Token(epoch: nat, sequence: nat)

  datatype State = State(epoch: nat, next: nat, outstanding: map<nat, set<nat>>, invalidated: nat)

  /** The tokens that a table of sequence sets stands for. */
  function Tokens(outstanding: map<nat, set<nat>>): set<Token> {
    set e, q | e in outstanding && q in outstanding[e] :: Token(e, q)
  }

  function Before(outstanding: map<nat, set<nat>>, epoch: nat): map<nat, set<nat>> {
    map e | e in outstanding && e < epoch :: outstanding[e]
  }

  function From(outstanding: map<nat, set<nat>>, epoch: nat): map<nat, set<nat>> {
    map e | e in outstanding && epoch <= e :: outstanding[e]
  }

  function SequencesOf(outstanding: map<nat, set<nat>>, epoch: nat): set<nat> {
    if epoch in outstanding then outstanding[epoch] else {}
  }

  function Fresh(epoch: nat): State {
    State(epoch, 1, map[], 0)
  }

  function Issue(s: State, epoch: nat): (State, Result<Token, FenceError>) {
    if epoch != s.epoch then (s, Err(StaleEpoch))
    else if |Tokens(s.outstanding)| >= MAX_OUTSTANDING_DECISIONS then (s, Err(Capacity))
    else
      var sequences := SequencesOf(s.outstanding, epoch) + {s.next};
      (s.(next := s.next + 1, outstanding := s.outstanding[epoch := sequences]), Ok(Token(epoch, s.next)))
  }

  function Settle(s: State, token: Token): (State, Result<(), FenceError>) {
    if token.epoch != s.epoch then (s, Err(StaleDecision))
    else if token.sequence !in SequencesOf(s.outstanding, token.epoch) then (s, Err(UnknownDecision))
    else (s.(outstanding := s.outstanding[token.epoch := s.outstanding[token.epoch] - {token.sequence}]), Ok(()))
  }

  function Advance(s: State, epoch: nat): (State, Result<nat, FenceError>) {
    if epoch <= s.epoch then (s, Err(NonAdvancingEpoch))
    else
      var stale := |Tokens(Before(s.outstanding, epoch))|;
      (State(epoch, s.next, From(s.outstanding, epoch), s.invalidated + stale), Ok(stale))
  }

  // ---------- Counting ----------

  lemma TokensOfOne(epoch: nat, sequences: set<nat>)
    ensures |Tokens(map[epoch := sequences])| == |sequences|
    decreases sequences
  {
    if sequences == {} {
      assert Tokens(map[epoch := sequences]) == {};
    } else {
      var q :| q in sequences;
      TokensOfOne(epoch, sequences - {q});
      assert Tokens(map[epoch := sequences]) == Tokens(map[epoch := sequences - {q}]) + {Token(epoch, q)};
    }
  }

  lemma TokensSplit(outstanding: map<nat, set<nat>>, keys: set<nat>, e: nat)
    requires e in outstanding && e !in keys && keys <= outstanding.Keys
    ensures |Tokens(Restrict(outstanding, keys + {e}))| == |Tokens(Restrict(outstanding, keys))| + |outstanding[e]|
  {
    var whole, part, one := Restrict(outstanding, keys + {e}), Restrict(outstanding, keys), map[e := outstanding[e]];
    assert Tokens(whole) == Tokens(part) + Tokens(one);
    assert Tokens(part) !! Tokens(one);
    TokensOfOne(e, outstanding[e]);
  }

  ghost function Restrict(outstanding: map<nat, set<nat>>, keys: set<nat>): map<nat, set<nat>> {
    map e | e in outstanding && e in keys :: outstanding[e]
  }

  /** The sum of the sizes of the sets, in any order of the epochs. */
  method Count(outstanding: map<nat, set<nat>>) returns (total: nat)
    ensures total == |Tokens(outstanding)|
  {
    total := 0;
    var rest := outstanding.Keys;
    assert Tokens(Restrict(outstanding, {})) == {};
    while rest != {}
      invariant rest <= outstanding.Keys
      invariant total == |Tokens(Restrict(outstanding, outstanding.Keys - rest))|
      decreases |rest|
    {
      var e :| e in rest;
      TokensSplit(outstanding, outstanding.Keys - rest, e);
      assert outstanding.Keys - rest + {e} == outstanding.Keys - (rest - {e});
      total := total + |outstanding[e]|;
      rest := rest - {e};
    }
    assert Restrict(outstanding, outstanding.Keys - rest) == outstanding;
  }

  // ---------- The object ----------

  class Fence {
    var currentEpoch: nat
    var nextSequence: nat
    var outstanding: map<nat, set<nat>>
    var invalidated: nat

    function Value(): State
      reads this
    {
      State(currentEpoch, nextSequence, outstanding, invalidated)
    }

    constructor (epoch: nat)
      ensures Value() == Fresh(epoch)
    {
      currentEpoch, nextSequence, outstanding, invalidated := epoch, 1, map[], 0;
    }

    method IssueToken(epoch: nat) returns (r: Result<Token, FenceError>)
      modifies this
      ensures (Value(), r) == Issue(old(Value()), epoch)
    {
      if epoch != currentEpoch {
        return Err(StaleEpoch);
      }
      var count := Count(outstanding);
      if count >= MAX_OUTSTANDING_DECISIONS {
        return Err(Capacity);
      }
      var token := Token(epoch, nextSequence);
      nextSequence := nextSequence + 1;
      outstanding := outstanding[epoch := SequencesOf(outstanding, epoch) + {token.sequence}];
      return Ok(token);
    }

    method SettleToken(token: Token) returns (r: Result<(), FenceError>)
      modifies this`outstanding
      ensures (Value(), r) == Settle(old(Value()), token)
    {
      if token.epoch != currentEpoch {
        return Err(StaleDecision);
      }
      if token.epoch !in outstanding || token.sequence !in outstanding[token.epoch] {
        return Err(UnknownDecision);
      }
      outstanding := outstanding[token.epoch := outstanding[token.epoch] - {token.sequence}];
      return Ok(());
    }

    method AdvanceEpoch(epoch: nat) returns (r: Result<nat, FenceError>)
      modifies this
      ensures (Value(), r) == Advance(old(Value()), epoch)
    {
      if epoch <= currentEpoch {
        return Err(NonAdvancingEpoch);
      }
      var stale := Count(Before(outstanding, epoch));
      outstanding := From(outstanding, epoch);
      currentEpoch := epoch;
      invalidated := invalidated + stale;
      return Ok(stale);
    }
  }

  // ---------- Runs ----------

  datatype Op = IssueOp(epoch: nat) | SettleOp(token: Token) | AdvanceOp(epoch: nat)

  /** The state of a fence and the tokens its callers saw issued and settled, in order. */
  datatype History = History(state: State, issued: seq<Token>, settled: seq<Token>)

  function Perform(h: History, op: Op): History {
    match op
    case IssueOp(epoch) =>
      var (s, r) := Issue(h.state, epoch);
      History(s, if r.Ok? then h.issued + [r.value] else h.issued, h.settled)
    case SettleOp(token) =>
      var (s, r) := Settle(h.state, token);
      History(s, h.issued, if r.Ok? then h.settled + [token] else h.settled)
    case AdvanceOp(epoch) =>
      History(Advance(h.state, epoch).0, h.issued, h.settled)
  }

  function Run(epoch: nat, ops: seq<Op>): History {
    if ops == [] then History(Fresh(epoch), [], []) else Perform(Run(epoch, ops[..|ops| - 1]), ops[|ops| - 1])
  }

  /** Issued, not settled, and of the current epoch. */
  function Live(h: History): set<Token> {
    set t | t in h.issued && t !in h.settled && t.epoch == h.state.epoch
  }

  /** Issued, not settled, and of an epoch that ended. */
  function Dropped(h: History): set<Token> {
    set t | t in h.issued && t !in h.settled && t.epoch < h.state.epoch
  }

  ghost predicate Numbered(h: History) {
    && h.state.next == |h.issued| + 1
    && forall i :: 0 <= i < |h.issued| ==> h.issued[i].sequence == i + 1 && h.issued[i].epoch <= h.state.epoch
  }

  ghost predicate Inv(h: History) {
    && Numbered(h)
    && Distinct(h.settled) && (forall t :: t in h.settled ==> t in h.issued)
    && h.state.outstanding.Keys <= {h.state.epoch}
    && Tokens(h.state.outstanding) == Live(h)
    && h.state.invalidated == |Dropped(h)|
    && |Live(h)| <= MAX_OUTSTANDING_DECISIONS
  }

  lemma TokensOfCurrent(s: State)
    requires s.outstanding.Keys <= {s.epoch}
    ensures forall t :: t in Tokens(s.outstanding) <==> t.epoch == s.epoch && t.sequence in SequencesOf(s.outstanding, s.epoch)
  {
  }

  lemma IssueKeeps(h: History, epoch: nat)
    requires Inv(h)
    ensures Inv(Perform(h, IssueOp(epoch)))
  {
    if Issue(h.state, epoch).1.Ok? {
      var token := Issue(h.state, epoch).1.value;
      IssueNumbers(h, epoch);
      IssueAddsToken(h, epoch);
      IssueAddsLive(h, epoch);
      hide Numbered, Tokens, Live, Dropped;
    }
  }

  lemma IssueAddsToken(h: History, epoch: nat)
    requires Inv(h) && Issue(h.state, epoch).1.Ok?
    ensures Tokens(Issue(h.state, epoch).0.outstanding) == Tokens(h.state.outstanding) + {Issue(h.state, epoch).1.value}
  {
    hide Live, Dropped, Numbered;
    TokensOfCurrent(h.state);
    TokensOfCurrent(Issue(h.state, epoch).0);
  }

  lemma IssueAddsLive(h: History, epoch: nat)
    requires Inv(h) && Issue(h.state, epoch).1.Ok?
    ensures var next := Perform(h, IssueOp(epoch));
            Live(next) == Live(h) + {Issue(h.state, epoch).1.value} && Dropped(next) == Dropped(h)
  {
    IssueNumbers(h, epoch);
    hide Tokens, Numbered;
  }

  lemma IssueNumbers(h: History, epoch: nat)
    requires Inv(h) && Issue(h.state, epoch).1.Ok?
    ensures Numbered(Perform(h, IssueOp(epoch))) && Issue(h.state, epoch).1.value !in h.issued
  {
    hide Tokens, Live, Dropped;
  }

  lemma SettleKeeps(h: History, token: Token)
    requires Inv(h)
    ensures Inv(Perform(h, SettleOp(token)))
  {
    var next := Perform(h, SettleOp(token));
    var (s, r) := Settle(h.state, token);
    TokensOfCurrent(h.state);
    if r.Ok? {
      TokensOfCurrent(s);
      assert token in Live(h);
      assert Live(next) == Live(h) - {token};
      assert Dropped(next) == Dropped(h);
      assert Tokens(s.outstanding) == Tokens(h.state.outstanding) - {token};
    }
  }

  lemma AdvanceKeeps(h: History, epoch: nat)
    requires Inv(h)
    ensures Inv(Perform(h, AdvanceOp(epoch)))
    ensures epoch > h.state.epoch ==> Advance(h.state, epoch).1 == Ok(|Tokens(h.state.outstanding)|)
  {
    var next := Perform(h, AdvanceOp(epoch));
    if epoch > h.state.epoch {
      assert Before(h.state.outstanding, epoch) == h.state.outstanding;
      assert next.state.outstanding == map[];
      IssuedEpochs(h);
      assert Live(next) == {};
      AdvanceDrops(h, epoch);
    }
  }

  lemma AdvanceDrops(h: History, epoch: nat)
    requires Inv(h) && epoch > h.state.epoch
    ensures |Dropped(Perform(h, AdvanceOp(epoch)))| == |Dropped(h)| + |Live(h)|
  {
    IssuedEpochs(h);
    assert Dropped(Perform(h, AdvanceOp(epoch))) == Dropped(h) + Live(h);
    assert Dropped(h) !! Live(h);
  }

  lemma {:induction false} RunKeeps(epoch: nat, ops: seq<Op>)
    ensures Inv(Run(epoch, ops))
  {
    if ops == [] {
      assert Live(Run(epoch, ops)) == {} && Dropped(Run(epoch, ops)) == {} && Tokens(map[]) == {};
    } else {
      hide Inv, Perform;
      RunKeeps(epoch, ops[..|ops| - 1]);
      match ops[|ops| - 1]
      case IssueOp(e) => IssueKeeps(Run(epoch, ops[..|ops| - 1]), e);
      case SettleOp(t) => SettleKeeps(Run(epoch, ops[..|ops| - 1]), t);
      case AdvanceOp(e) => AdvanceKeeps(Run(epoch, ops[..|ops| - 1]), e);
    }
  }

  // ---------- Main results ----------

  lemma {:induction false} DistinctCount(s: seq<Token>)
    requires Distinct(s)
    ensures |set t | t in s| == |s|
  {
    if s == [] {
      assert (set t | t in s) == {};
    } else {
      var n := |s| - 1;
      DistinctCount(s[..n]);
      assert (set t | t in s) == (set t | t in s[..n]) + {s[n]};
      assert s[n] !in s[..n];
    }
  }

  /** Every issued token is settled, outstanding or invalidated, and exactly one of these. */
  lemma TokensAreConserved(epoch: nat, ops: seq<Op>)
    ensures var h := Run(epoch, ops);
            && Distinct(h.issued) && Distinct(h.settled)
            && |h.issued| == |h.settled| + |Tokens(h.state.outstanding)| + h.state.invalidated
            && |Tokens(h.state.outstanding)| <= 4096
            && (forall t :: t in Tokens(h.state.outstanding) <==> t in h.issued && t !in h.settled && t.epoch == h.state.epoch)
  {
    var h := Run(epoch, ops);
    RunKeeps(epoch, ops);
    hide Run, Tokens;
    Partition(h);
  }

  lemma Partition(h: History)
    requires Inv(h)
    ensures Distinct(h.issued) && |h.issued| == |h.settled| + |Live(h)| + |Dropped(h)|
  {
    hide Tokens;
    assert Distinct(h.issued);
    DistinctCount(h.issued);
    DistinctCount(h.settled);
    var issued, settled := set t | t in h.issued, set t | t in h.settled;
    IssuedEpochs(h);
    hide Distinct, Numbered;
    assert issued == settled + (Live(h) + Dropped(h));
    assert settled !! Live(h) + Dropped(h);
    assert Dropped(h) !! Live(h);
  }

  lemma IssuedEpochs(h: History)
    requires Numbered(h)
    ensures forall t :: t in h.issued ==> t.epoch <= h.state.epoch
  {
    forall t | t in h.issued ensures t.epoch <= h.state.epoch {
      var i :| 0 <= i < |h.issued| && h.issued[i] == t;
    }
  }

  /** Exactly which tokens settle: issued in this epoch and not settled before. */
  lemma SettlesExactlyOnce(epoch: nat, ops: seq<Op>, token: Token)
    ensures var h := Run(epoch, ops);
            var r := Settle(h.state, token).1;
            && (r == Ok(()) <==> token in h.issued && token !in h.settled && token.epoch == h.state.epoch)
            && (r == Err(StaleDecision) <==> token.epoch != h.state.epoch)
            && (r == Err(UnknownDecision) <==> token.epoch == h.state.epoch && (token !in h.issued || token in h.settled))
  {
    RunKeeps(epoch, ops);
    hide Run;
    var h := Run(epoch, ops);
    TokensOfCurrent(h.state);
    assert token in Tokens(h.state.outstanding) <==> token in Live(h);
  }

  /** Exactly when a token is issued, and that it is new: tokens are numbered from one in the order they are issued. */
  lemma IssuesFreshTokens(epoch: nat, ops: seq<Op>, requested: nat)
    ensures var h := Run(epoch, ops);
            var (s, r) := Issue(h.state, requested);
            var live := set t | t in h.issued && t !in h.settled && t.epoch == h.state.epoch;
            && (r == Err(StaleEpoch) <==> requested != h.state.epoch)
            && (r == Err(Capacity) <==> requested == h.state.epoch && |live| >= 4096)
            && (r.Ok? <==> requested == h.state.epoch && |live| < 4096)
            && (r.Ok? ==> && r.value == Token(h.state.epoch, |h.issued| + 1) && r.value !in h.issued
                          && (s.epoch, s.invalidated) == (h.state.epoch, h.state.invalidated))
            && (r.Err? ==> s == h.state)
            && (forall i :: 0 <= i < |h.issued| ==> h.issued[i].sequence == i + 1)
  {
    RunKeeps(epoch, ops);
    hide Run, Tokens, Dropped;
    var h := Run(epoch, ops);
    assert Live(h) == set t | t in h.issued && t !in h.settled && t.epoch == h.state.epoch;
    forall t | t in h.issued ensures t.sequence <= |h.issued| {
      var i :| 0 <= i < |h.issued| && h.issued[i] == t;
    }
  }

  /**
   An epoch advances exactly to a later one, which reports exactly the tokens it drops and counts them as invalidated;
   nothing is left outstanding and none of them settles afterwards.
   */
  lemma AdvanceReportsOutstanding(epoch: nat, ops: seq<Op>, next: nat, more: seq<Op>, token: Token)
    ensures var h := Run(epoch, ops);
            var (s, r) := Advance(h.state, next);
            && (next <= h.state.epoch ==> r == Err(NonAdvancingEpoch) && s == h.state)
            && (next > h.state.epoch ==>
                  && r == Ok(|Tokens(h.state.outstanding)|) && s.epoch == next && s.next == h.state.next
                  && Tokens(s.outstanding) == {} && s.invalidated == h.state.invalidated + |Tokens(h.state.outstanding)|
                  && (token in Tokens(h.state.outstanding) ==>
                        Settle(Run(epoch, ops + [AdvanceOp(next)] + more).state, token).1 == Err(StaleDecision)))
    ensures Run(epoch, []).state.epoch == epoch
  {
    var h := Run(epoch, ops);
    RunKeeps(epoch, ops);
    if next > h.state.epoch {
      AdvanceKeeps(h, next);
      var advanced := ops + [AdvanceOp(next)];
      assert advanced[..|advanced| - 1] == ops;
      assert Run(epoch, advanced).state.epoch == next;
      EpochsGrow(epoch, advanced, more);
      TokensOfCurrent(h.state);
      assert From(h.state.outstanding, next) == map[];
    }
  }

  lemma {:induction false} EpochsGrow(epoch: nat, ops: seq<Op>, more: seq<Op>)
    ensures Run(epoch, ops).state.epoch <= Run(epoch, ops + more).state.epoch
    decreases |more|
  {
    if more == [] {
      assert ops + more == ops;
    } else {
      assert (ops + more)[..|ops + more| - 1] == ops + more[..|more| - 1];
      EpochsGrow(epoch, ops, more[..|more| - 1]);
    }
  }
}

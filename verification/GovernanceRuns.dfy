/** What holds of the governance controller over every run of blocks. */
module GovernanceRuns {
  import opened Prelude
  import opened Overlays
  import opened Amounts
  import opened Delegatees
  import opened GovernanceParams
  import opened Proposals
  import opened Governance

  // ----- A block as a run of each proposal -----

  function Slashes(evidence: seq<Address>, ratio: int): seq<Event>
  {
    if evidence == [] then []
    else Slashes(evidence[..|evidence| - 1], ratio) + [Slashing(evidence[|evidence| - 1], ratio)]
  }

  /** The ballots for proposal k among some transactions. */
  function Ballots(txs: seq<GovTx>, k: Hash): seq<Event>
  {
    if txs == [] then []
    else
      var tx := txs[|txs| - 1];
      Ballots(txs[..|txs| - 1], k) +
      (if tx.Ballot? && tx.target == k && tx.to == ZERO_ADDRESS && tx.choice >= 0 then [Voting(tx.voter, tx.choice)] else [])
  }

  /** What nothing but the closing of a proposal changes. */
  predicate SameTerms(p: Proposal, q: Proposal)
  {
    && q.optType == p.optType && q.start == p.start && q.end == p.end && q.applying == p.applying && q.major == p.major
    && |q.options| == |p.options|
    && forall i | 0 <= i < |p.options| :: q.options[i].content == p.options[i].content
  }

  lemma StepKeepsTerms(p: Proposal, e: Event)
    requires Chosen(p)
    ensures SameTerms(p, Step(p, e)) && Step(p, e).voters.Keys <= p.voters.Keys
  {
  }

  lemma {:induction false} RunKeepsTerms(p: Proposal, es: seq<Event>)
    requires Chosen(p)
    ensures SameTerms(p, Run(p, es)) && Run(p, es).voters.Keys <= p.voters.Keys
  {
    if es != [] {
      RunKeepsTerms(p, es[..|es| - 1]);
      StepKeepsTerms(Run(p, es[..|es| - 1]), es[|es| - 1]);
    }
  }

  lemma RunSnoc(p: Proposal, es: seq<Event>, e: Event)
    requires Chosen(p)
    ensures Run(p, es + [e]) == Step(Run(p, es), e)
  {
    assert (es + [e])[..|es + [e]| - 1] == es;
  }

  lemma {:induction false} RunConcat(p: Proposal, a: seq<Event>, b: seq<Event>)
    requires Chosen(p)
    ensures Run(p, a + b) == Run(Run(p, a), b)
    decreases |b|
  {
    if b == [] {
      assert a + b == a;
    } else {
      var front, e := b[..|b| - 1], b[|b| - 1];
      RunConcat(p, a, front);
      assert a + b == a + front + [e];
      RunSnoc(p, a + front, e);
    }
  }

  ghost predicate Clean(o: Overlay<Hash, Proposal>)
  {
    o == Fresh(o.committed) && AllChosen(o.working)
  }

  /** BeginBlock runs every open proposal through the slashes of the block. */
  lemma {:induction false} PunishEachRuns(o: Overlay<Hash, Proposal>, evidence: seq<Address>, ratio: int)
    requires Clean(o)
    ensures var r := PunishEach(o, evidence, ratio);
            && r.committed == o.committed && r.dead == {} && r.working.Keys == o.committed.Keys
            && forall k | k in o.committed :: r.working[k] == Run(o.committed[k], Slashes(evidence, ratio))
  {
    if evidence != [] {
      var front, a := evidence[..|evidence| - 1], evidence[|evidence| - 1];
      PunishEachRuns(o, front, ratio);
      var m, r := PunishEach(o, front, ratio), PunishEach(o, evidence, ratio);
      forall k | k in o.committed ensures r.working[k] == Run(o.committed[k], Slashes(evidence, ratio)) {
        RunKeepsTerms(o.committed[k], Slashes(front, ratio));
        RunSnoc(o.committed[k], Slashes(front, ratio), Slashing(a, ratio));
      }
    }
  }

  predicate Open(p: Proposal, h: int)
  {
    p.start <= h <= p.end
  }

  /** The value of proposal k after some transactions of block h, given its value before them. */
  function AfterBallots(p: Proposal, txs: seq<GovTx>, k: Hash, h: int): Proposal
    requires Chosen(p)
  {
    if Open(p, h) then Run(p, Ballots(txs, k)) else p
  }

  function Hashes(txs: seq<GovTx>): seq<Hash>
  {
    if txs == [] then []
    else Hashes(txs[..|txs| - 1]) + (if txs[|txs| - 1].Propose? then [txs[|txs| - 1].hash] else [])
  }

  lemma BallotStep(p: Proposal, txs: seq<GovTx>, k: Hash, h: int)
    requires Chosen(p) && txs != []
    ensures var tx, q := txs[|txs| - 1], AfterBallots(p, txs[..|txs| - 1], k, h);
            AfterBallots(p, txs, k, h) ==
            if tx.Ballot? && tx.target == k && tx.to == ZERO_ADDRESS && tx.choice >= 0 && Open(p, h)
            then Step(q, Voting(tx.voter, tx.choice)) else q
  {
    var tx := txs[|txs| - 1];
    if tx.Ballot? && tx.target == k && tx.to == ZERO_ADDRESS && tx.choice >= 0 {
      RunSnoc(p, Ballots(txs[..|txs| - 1], k), Voting(tx.voter, tx.choice));
    } else {
      assert Ballots(txs, k) == Ballots(txs[..|txs| - 1], k);
    }
  }

  /** A ballot counts only inside the voting period, and then as one step of the proposal. */
  lemma BallotIsStep(g: Gov, vals: seq<Validator>, tx: GovTx)
    requires AllChosen(g.proposals.working) && g.proposals.dead == {} && tx.Ballot?
    ensures var g' := Deliver(g, vals, tx);
            && g' == g.(proposals := g'.proposals) && g'.proposals == g.proposals.(working := g'.proposals.working)
            && g'.proposals.working.Keys == g.proposals.working.Keys
            && forall k | k in g.proposals.working ::
                 g'.proposals.working[k] ==
                 if tx.target == k && tx.to == ZERO_ADDRESS && tx.choice >= 0 && Open(g.proposals.working[k], g.height + 1)
                 then Step(g.proposals.working[k], Voting(tx.voter, tx.choice)) else g.proposals.working[k]
  {
  }

  // ----- What the ledgers hold -----

  predicate RatioOk(p: GovParams)
  {
    0 <= p.slashRatio <= 100
  }

  predicate Typed(p: Proposal, c: Content)
  {
    p.optType == ParamsType ==> c.Params? && RatioOk(c.params)
  }

  /** A proposal in the voting ledger after block h. */
  ghost predicate VotingOk(p: Proposal, h: int)
  {
    && Tallied(p) && p.total < I63 / 2 && p.options != [] && p.major.None?
    && p.start <= p.end <= p.applying && p.end >= h
    && forall i | 0 <= i < |p.options| :: Typed(p, p.options[i].content)
  }

  ghost predicate ValsOk(vals: seq<Validator>)
  {
    DistinctVals(vals) && (forall i | 0 <= i < |vals| :: vals[i].power >= 0) && SumSeq(ValidatorPower, vals) < I63 / 2
  }

  /** Proposed parameters do not take the slash ratio out of 0..100. */
  predicate ContentsOk(tx: GovTx)
  {
    tx.Propose? ==> forall c | c in tx.contents && c.Params? :: RatioOk(c.params)
  }

  lemma RunKeepsVotingOk(p: Proposal, h: int, es: seq<Event>)
    requires VotingOk(p, h) && RatiosOk(es)
    ensures VotingOk(Run(p, es), h)
  {
    RunsKeepTally(p, es);
    RunKeepsTerms(p, es);
  }

  lemma NewIsVotingOk(g: Gov, vals: seq<Validator>, tx: GovTx)
    requires tx.Propose? && ValidProposal(g, vals, tx) && ValsOk(vals) && ContentsOk(tx)
    ensures var p := NewProposal(tx.optType, tx.start, tx.blocks, tx.applying, vals, tx.contents);
            VotingOk(p, g.height + 1) && p.start > g.height + 1
  {
    NewIsTallied(tx.optType, tx.start, tx.blocks, tx.applying, vals, tx.contents);
    var p := NewProposal(tx.optType, tx.start, tx.blocks, tx.applying, vals, tx.contents);
    forall i | 0 <= i < |p.options| ensures Typed(p, p.options[i].content) { assert tx.contents[i] in tx.contents; }
  }

  ghost predicate FreshHashes(used: set<Hash>, txs: seq<GovTx>)
  {
    Distinct(Hashes(txs)) && forall k | k in Hashes(txs) :: k !in used
  }

  /** The state inside a block: the open proposals have run, and what is new cannot be voted on yet. */
  ghost predicate Delivered(g: Gov, r: Gov, txs: seq<GovTx>)
    requires AllChosen(g.proposals.working)
  {
    && r == g.(used := r.used, proposals := g.proposals.(working := r.proposals.working))
    && (forall k :: k in r.used <==> k in g.used || k in Hashes(txs))
    && (forall k | k in g.proposals.working ::
          k in r.proposals.working && r.proposals.working[k] == AfterBallots(g.proposals.working[k], txs, k, g.height + 1))
    && (forall k | k in r.proposals.working && k !in g.proposals.working ::
          k in Hashes(txs) && VotingOk(r.proposals.working[k], g.height + 1) && r.proposals.working[k].start > g.height + 1)
  }

  lemma {:induction false} DeliverAllLaw(g: Gov, vals: seq<Validator>, txs: seq<GovTx>)
    requires AllChosen(g.proposals.working) && g.proposals.dead == {} && g.proposals.working.Keys <= g.used
    requires ValsOk(vals) && FreshHashes(g.used, txs) && forall tx | tx in txs :: ContentsOk(tx)
    ensures Delivered(g, DeliverAll(g, vals, txs), txs)
  {
    if txs != [] {
      var front, tx := txs[..|txs| - 1], txs[|txs| - 1];
      FrontIsFresh(g.used, txs);
      assert forall t | t in front :: t in txs;
      DeliverAllLaw(g, vals, front);
      if tx.Ballot? {
        DeliverBallot(g, DeliverAll(g, vals, front), vals, txs);
      } else {
        DeliverProposal(g, DeliverAll(g, vals, front), vals, txs);
      }
    }
  }

  lemma FrontIsFresh(used: set<Hash>, txs: seq<GovTx>)
    requires FreshHashes(used, txs) && txs != []
    ensures FreshHashes(used, txs[..|txs| - 1])
    ensures txs[|txs| - 1].Propose? ==> txs[|txs| - 1].hash !in Hashes(txs[..|txs| - 1]) && txs[|txs| - 1].hash !in used
  {
    var all, front := Hashes(txs), Hashes(txs[..|txs| - 1]);
    assert front == all[..|front|];
    if txs[|txs| - 1].Propose? { assert all[|front|] == txs[|txs| - 1].hash; }
  }

  lemma DeliverBallot(g: Gov, m: Gov, vals: seq<Validator>, txs: seq<GovTx>)
    requires AllChosen(g.proposals.working) && AllChosen(m.proposals.working) && g.proposals.dead == {}
    requires txs != [] && txs[|txs| - 1].Ballot? && Delivered(g, m, txs[..|txs| - 1])
    ensures Delivered(g, Deliver(m, vals, txs[|txs| - 1]), txs)
  {
    var front, tx, r, h := txs[..|txs| - 1], txs[|txs| - 1], Deliver(m, vals, txs[|txs| - 1]), g.height + 1;
    BallotIsStep(m, vals, tx);
    forall k | k in g.proposals.working ensures r.proposals.working[k] == AfterBallots(g.proposals.working[k], txs, k, h) {
      var q := m.proposals.working[k];
      BallotAdvances(g.proposals.working[k], front, tx, k, h, q);
      assert front + [tx] == txs;
    }
    assert Hashes(txs) == Hashes(front);
  }

  /** One more ballot, on the proposal with hash k. */
  lemma BallotAdvances(p: Proposal, front: seq<GovTx>, tx: GovTx, k: Hash, h: int, q: Proposal)
    requires Chosen(p) && tx.Ballot? && q == AfterBallots(p, front, k, h)
    ensures AfterBallots(p, front + [tx], k, h) ==
            if tx.target == k && tx.to == ZERO_ADDRESS && tx.choice >= 0 && Open(q, h) then Step(q, Voting(tx.voter, tx.choice)) else q
  {
    var txs := front + [tx];
    assert txs[..|txs| - 1] == front;
    BallotStep(p, txs, k, h);
    RunKeepsTerms(p, Ballots(front, k));
  }

  lemma DeliverProposal(g: Gov, m: Gov, vals: seq<Validator>, txs: seq<GovTx>)
    requires AllChosen(g.proposals.working) && AllChosen(m.proposals.working) && g.proposals.dead == {}
    requires g.proposals.working.Keys <= g.used
    requires txs != [] && txs[|txs| - 1].Propose? && Delivered(g, m, txs[..|txs| - 1])
    requires txs[|txs| - 1].hash !in Hashes(txs[..|txs| - 1]) && txs[|txs| - 1].hash !in g.used
    requires ValsOk(vals) && ContentsOk(txs[|txs| - 1])
    ensures Delivered(g, Deliver(m, vals, txs[|txs| - 1]), txs)
  {
    var tx := txs[|txs| - 1];
    var m' := m.(used := m.used + {tx.hash});
    HashesSnoc(txs);
    ProposalsAreNoBallots(g.proposals.working, txs, g.height + 1);
    ProposalSeen(g, m, txs, txs[..|txs| - 1], tx.hash);
    if ValidProposal(m, vals, tx) {
      NewIsVotingOk(m, vals, tx);
      ProposalAdded(g, m', txs, tx.hash, NewProposal(tx.optType, tx.start, tx.blocks, tx.applying, vals, tx.contents));
    }
  }

  lemma ProposalSeen(g: Gov, m: Gov, txs: seq<GovTx>, front: seq<GovTx>, hash: Hash)
    requires AllChosen(g.proposals.working) && Delivered(g, m, front)
    requires forall k | k in g.proposals.working ::
               AfterBallots(g.proposals.working[k], txs, k, g.height + 1) == AfterBallots(g.proposals.working[k], front, k, g.height + 1)
    requires forall k :: k in Hashes(txs) <==> k in Hashes(front) || k == hash
    ensures Delivered(g, m.(used := m.used + {hash}), txs)
  {
  }

  lemma HashesSnoc(txs: seq<GovTx>)
    requires txs != [] && txs[|txs| - 1].Propose?
    ensures forall k :: k in Hashes(txs) <==> k in Hashes(txs[..|txs| - 1]) || k == txs[|txs| - 1].hash
  {
    assert Hashes(txs) == Hashes(txs[..|txs| - 1]) + [txs[|txs| - 1].hash];
  }

  lemma ProposalsAreNoBallots(m: map<Hash, Proposal>, txs: seq<GovTx>, h: int)
    requires AllChosen(m) && txs != [] && txs[|txs| - 1].Propose?
    ensures forall k | k in m :: AfterBallots(m[k], txs, k, h) == AfterBallots(m[k], txs[..|txs| - 1], k, h)
  {
    forall k | k in m ensures AfterBallots(m[k], txs, k, h) == AfterBallots(m[k], txs[..|txs| - 1], k, h) {
      BallotStep(m[k], txs, k, h);
    }
  }

  lemma ProposalAdded(g: Gov, m: Gov, txs: seq<GovTx>, hash: Hash, p: Proposal)
    requires AllChosen(g.proposals.working) && Delivered(g, m, txs) && hash in Hashes(txs)
    requires hash !in g.proposals.working && VotingOk(p, g.height + 1) && p.start > g.height + 1
    ensures Delivered(g, m.(proposals := m.proposals.Set(hash, p)), txs)
  {
  }

  // ----- EndBlock in closed form -----

  function Ended(c: map<Hash, Proposal>, h: int): set<Hash>
  {
    set k | k in c && c[k].end < h
  }

  /** The frozen form of the ended proposals that have a winner. */
  function Outcomes(c: map<Hash, Proposal>, ended: set<Hash>): map<Hash, Proposal>
  {
    map k | k in ended && k in c && Outcome(c[k]).major.Some? :: Outcome(c[k])
  }

  function Within(s: set<Hash>, ks: seq<Hash>): set<Hash>
  {
    set k | k in s && k in ks
  }

  function Remove(o: Overlay<Hash, Proposal>, s: set<Hash>): Overlay<Hash, Proposal>
  {
    Overlay(o.committed, o.working - s, o.dead + s)
  }

  function Frozen(g: Gov, ended: set<Hash>): Gov
  {
    MoveTo(g, ended, Outcomes(g.proposals.committed, ended))
  }

  function MoveTo(g: Gov, ended: set<Hash>, outcomes: map<Hash, Proposal>): Gov
  {
    g.(proposals := Remove(g.proposals, ended), frozen := g.frozen.(working := g.frozen.working + outcomes))
  }

  lemma WithinSnoc(s: set<Hash>, ks: seq<Hash>)
    requires ks != []
    ensures ks[|ks| - 1] in s ==> Within(s, ks) == Within(s, ks[..|ks| - 1]) + {ks[|ks| - 1]}
    ensures ks[|ks| - 1] !in s ==> Within(s, ks) == Within(s, ks[..|ks| - 1])
  {
    assert ks == ks[..|ks| - 1] + [ks[|ks| - 1]];
  }

  lemma RemoveMore(o: Overlay<Hash, Proposal>, s: set<Hash>, k: Hash)
    requires k in o.working && k !in o.dead && k !in s
    ensures Remove(o, s).Get(k).Some? && Remove(o, s).Del(k) == Remove(o, s + {k})
  {
    assert o.working - s - {k} == o.working - (s + {k});
    assert o.dead + s + {k} == o.dead + (s + {k});
  }

  lemma OutcomesMore(c: map<Hash, Proposal>, s: set<Hash>, k: Hash)
    requires k in c && k !in s
    ensures Outcomes(c, s + {k}) == if Outcome(c[k]).major.Some? then Outcomes(c, s)[k := Outcome(c[k])] else Outcomes(c, s)
  {
  }

  /** freezeProposals closes exactly the ended proposals, whatever the order, on their committed tallies. */
  lemma {:induction false} FreezeCloses(g: Gov, ks: seq<Hash>, h: int)
    requires Distinct(ks)
    requires forall k | k in Ended(g.proposals.committed, h) :: k in g.proposals.working && k !in g.proposals.dead
    ensures Freeze(g, ks, h) == Some(Frozen(g, Within(Ended(g.proposals.committed, h), ks)))
  {
    var ended := Ended(g.proposals.committed, h);
    if ks == [] {
      assert Within(ended, ks) == {};
      assert Frozen(g, {}) == g by {
        assert g.proposals.working - {} == g.proposals.working;
        assert Outcomes(g.proposals.committed, {}) == map[];
        assert g.frozen.working + map[] == g.frozen.working;
      }
    } else {
      var front, k := ks[..|ks| - 1], ks[|ks| - 1];
      FreezeCloses(g, front, h);
      WithinSnoc(ended, ks);
      var s := Within(ended, front);
      if k in ended {
        assert k !in front;
        FrozenMore(g, s, k, h);
      }
    }
  }

  lemma FrozenMore(g: Gov, s: set<Hash>, k: Hash, h: int)
    requires k in g.proposals.committed && g.proposals.committed[k].end < h
    requires k in g.proposals.working && k !in g.proposals.dead && k !in s
    ensures FreezeOne(Frozen(g, s), k, h) == Some(Frozen(g, s + {k}))
  {
    RemoveMore(g.proposals, s, k);
    OutcomesMore(g.proposals.committed, s, k);
    var c, w := g.proposals.committed, g.frozen.working;
    if Outcome(c[k]).major.Some? {
      assert (w + Outcomes(c, s))[k := Outcome(c[k])] == w + Outcomes(c, s)[k := Outcome(c[k])];
    }
  }

  function Due(c: map<Hash, Proposal>, h: int): set<Hash>
  {
    set k | k in c && c[k].applying <= h
  }

  /** The parameters that an applied proposal brings. */
  function Brings(p: Proposal): Option<GovParams>
  {
    if p.optType == ParamsType && p.major.Some? && p.major.value.content.Params? then Some(p.major.value.content.params)
    else None
  }

  /** What the last of some proposals that brings parameters brings. */
  function LastBrought(c: map<Hash, Proposal>, ks: seq<Hash>, h: int): Option<GovParams>
  {
    if ks == [] then None
    else
      var k := ks[|ks| - 1];
      if k in Due(c, h) && Brings(c[k]).Some? then Brings(c[k]) else LastBrought(c, ks[..|ks| - 1], h)
  }

  function Announce(g: Gov, p: Option<GovParams>): Gov
  {
    if p.None? then g
    else g.(stored := g.stored.Set(PARAMS_KEY, Merge(g.params, p.value)), newParams := Some(Merge(g.params, p.value)))
  }

  function Applied(g: Gov, due: set<Hash>, p: Option<GovParams>): Gov
  {
    Announce(g, p).(frozen := Remove(g.frozen, due))
  }

  lemma AppliedMore(g: Gov, s: set<Hash>, p: Option<GovParams>, k: Hash, h: int)
    requires k in g.frozen.committed && g.frozen.committed[k].applying <= h && WellMade(g.frozen.committed[k])
    requires k in g.frozen.working && k !in g.frozen.dead && k !in s
    ensures var brought := Brings(g.frozen.committed[k]);
            ApplyOne(Applied(g, s, p), k, h) == Some(Applied(g, s + {k}, if brought.Some? then brought else p))
  {
    RemoveMore(g.frozen, s, k);
    var brought := Brings(g.frozen.committed[k]);
    if brought.Some? && p.Some? {
      var w := g.stored.working;
      assert w[PARAMS_KEY := Merge(g.params, p.value)][PARAMS_KEY := Merge(g.params, brought.value)]
          == w[PARAMS_KEY := Merge(g.params, brought.value)];
    }
  }

  /** applyProposals takes out exactly the due proposals, and the last of them to bring parameters wins. */
  lemma {:induction false} ApplyTakes(g: Gov, ks: seq<Hash>, h: int)
    requires Distinct(ks)
    requires forall k | k in Due(g.frozen.committed, h) :: k in g.frozen.working && k !in g.frozen.dead
    requires forall k | k in g.frozen.committed :: WellMade(g.frozen.committed[k])
    ensures ApplyAll(g, ks, h)
         == Some(Applied(g, Within(Due(g.frozen.committed, h), ks), LastBrought(g.frozen.committed, ks, h)))
  {
    var due := Due(g.frozen.committed, h);
    if ks == [] {
      assert Within(due, ks) == {};
      assert Remove(g.frozen, {}) == g.frozen by { assert g.frozen.working - {} == g.frozen.working; }
    } else {
      var front, k := ks[..|ks| - 1], ks[|ks| - 1];
      ApplyTakes(g, front, h);
      WithinSnoc(due, ks);
      if k in due {
        assert k !in front;
        AppliedMore(g, Within(due, front), LastBrought(g.frozen.committed, front, h), k, h);
      }
    }
  }

  /** A frozen parameter proposal has a winner that is a set of parameters. */
  predicate WellMade(p: Proposal)
  {
    p.major.Some? && Typed(p, p.major.value.content)
  }

  lemma LessAsymmetric(a: Hash, b: Hash)
    requires Less(a, b)
    ensures !Less(b, a)
  {
    if Less(b, a) {
      LessTransitive(a, b, a);
      LessIrreflexive(a);
    }
  }

  /** The greatest key among the due proposals that bring parameters decides. */
  lemma {:induction false} LastIsGreatest(c: map<Hash, Proposal>, ks: seq<Hash>, h: int, k: Hash)
    requires forall i, j | 0 <= i < j < |ks| :: Less(ks[i], ks[j])
    requires k in ks && k in Due(c, h) && Brings(c[k]).Some?
    requires forall j | j in ks && j in Due(c, h) && Brings(c[j]).Some? :: j == k || Less(j, k)
    ensures LastBrought(c, ks, h) == Brings(c[k])
  {
    var front, last := ks[..|ks| - 1], ks[|ks| - 1];
    if last in Due(c, h) && Brings(c[last]).Some? {
      if last != k {
        var i :| 0 <= i < |ks| && ks[i] == k;
        LessAsymmetric(k, last);
        assert false;
      }
    } else {
      assert k in front;
      LastIsGreatest(c, front, h, k);
    }
  }

  lemma {:induction false} NoneBrought(c: map<Hash, Proposal>, ks: seq<Hash>, h: int)
    ensures LastBrought(c, ks, h).None? <==> forall k | k in ks && k in Due(c, h) :: Brings(c[k]).None?
    ensures LastBrought(c, ks, h).Some? ==> exists k :: k in ks && k in Due(c, h) && Brings(c[k]) == LastBrought(c, ks, h)
  {
    if ks != [] {
      var front, last := ks[..|ks| - 1], ks[|ks| - 1];
      NoneBrought(c, front, h);
      assert ks == front + [last];
    }
  }

  // ----- Blocks -----

  datatype GovBlock = GovBlock(evidence: seq<Address>, vals: seq<Validator>, txs: seq<GovTx>)

  ghost function KeysInOrder(s: set<Hash>): seq<Hash>
  {
    Sort(Less, AnyOrder(s))
  }

  lemma KeysAreInOrder(s: set<Hash>)
    ensures TreeOrder(KeysInOrder(s), s) && Distinct(KeysInOrder(s))
  {
    AnyOrderLists(s);
    SortedAscends(AnyOrder(s));
  }

  /** Whatever order the keys are taken in, sorting them gives the order of the tree. */
  lemma OrderIsUnique(ks: seq<Hash>, s: set<Hash>)
    requires Enumerates(ks, s)
    ensures Sort(Less, ks) == KeysInOrder(s)
  {
    AnyOrderLists(s);
    SortedAscends(ks);
    SortedAscends(AnyOrder(s));
    EnumerationsPermute(Sort(Less, ks), KeysInOrder(s), s);
    Ascending(Sort(Less, ks));
    Ascending(KeysInOrder(s));
    SortUnique(Less, Sort(Less, ks), KeysInOrder(s));
  }

  lemma Ascending(a: seq<Hash>)
    requires forall i, j | 0 <= i < j < |a| :: Less(a[i], a[j])
    ensures Sorted(Less, a) && Connected(Less, a)
  {
    forall i, j | 0 <= i < j < |a| ensures !Less(a[j], a[i]) {
      if Less(a[j], a[i]) { LessTransitive(a[i], a[j], a[i]); LessIrreflexive(a[i]); }
    }
    forall x, y | x in a && y in a && x != y ensures Less(x, y) || Less(y, x) { LessConnected(x, y); }
  }

  lemma KeysAreListed(s: set<Hash>)
    ensures Distinct(KeysInOrder(s)) && forall k | k in s :: k in KeysInOrder(s)
  {
    KeysAreInOrder(s);
  }

  lemma SortedAscends(ks: seq<Hash>)
    requires Distinct(ks)
    ensures var r := Sort(Less, ks);
            Distinct(r) && (forall k :: k in r <==> k in ks) && forall i, j | 0 <= i < j < |r| :: Less(r[i], r[j])
  {
    LessIsStrictTotal();
    assert WeakOrder(Less) by {
      forall x: Bytes, y: Bytes, z: Bytes | Less(x, z) ensures Less(x, y) || Less(y, z) { LessConnected(x, y); LessConnected(y, z); }
    }
    SortSorts(Less, ks);
    var r := Sort(Less, ks);
    SameElements(ks, r);
    forall i, j | 0 <= i < j < |r| ensures Less(r[i], r[j]) {
      assert r[i] != r[j] && !Less(r[j], r[i]);
    }
  }

  function Begun(g: Gov, b: GovBlock): (r: Gov)
    requires AllChosen(g.proposals.working)
    ensures AllChosen(r.proposals.working)
  {
    g.(proposals := PunishEach(g.proposals, b.evidence, g.params.slashRatio))
  }

  function Mid(g: Gov, b: GovBlock): Gov
    requires AllChosen(g.proposals.working)
  {
    DeliverAll(Begun(g, b), b.vals, b.txs)
  }

  ghost function ApplyAndCommit(f: Gov): Option<Gov>
  {
    var a := ApplyAll(f, KeysInOrder(f.frozen.committed.Keys), f.height + 1);
    if a.None? then None else Some(CommitGov(a.value))
  }

  /** EndBlock and Commit; None when EndBlock reports an error. */
  ghost function Close(m: Gov): Option<Gov>
  {
    var f := Freeze(m, KeysInOrder(m.proposals.committed.Keys), m.height + 1);
    if f.None? then None else ApplyAndCommit(f.value)
  }

  ghost function RunBlock(g: Gov, b: GovBlock): Option<Gov>
    requires AllChosen(g.proposals.working)
  {
    Close(Mid(g, b))
  }

  // ----- What every block keeps -----

  /** A proposal in the frozen ledger after block h. */
  predicate FrozenOk(p: Proposal, h: int)
  {
    WellMade(p) && p.end < h && (p.applying > h || p.end + 1 == h)
  }

  ghost predicate LedgersOk(voting: map<Hash, Proposal>, frozen: map<Hash, Proposal>, used: set<Hash>, h: int)
  {
    && (forall k | k in voting :: VotingOk(voting[k], h))
    && (forall k | k in frozen :: FrozenOk(frozen[k], h))
    && voting.Keys !! frozen.Keys && voting.Keys <= used && frozen.Keys <= used
  }

  /** The parameters in force are the stored ones, which are pending before the first block. */
  ghost predicate StoredOk(g: Gov)
  {
    g.stored.working == map[PARAMS_KEY := g.params] && g.stored.dead == {} && (g.height > 0 ==> g.stored.committed == g.stored.working)
  }

  /** Between blocks: no proposal is pending or in both ledgers, and the parameters in force are the stored ones. */
  ghost predicate GovInv(g: Gov)
  {
    && g.proposals == Fresh(g.proposals.committed) && g.frozen == Fresh(g.frozen.committed)
    && StoredOk(g) && g.height >= 0 && g.newParams.None? && RatioOk(g.params)
    && LedgersOk(g.proposals.committed, g.frozen.committed, g.used, g.height)
  }

  /** Validators are distinct, proposals have new hashes, and no proposed slash ratio leaves 0..100. */
  ghost predicate BlockOk(g: Gov, b: GovBlock)
  {
    ValsOk(b.vals) && FreshHashes(g.used, b.txs) && forall tx | tx in b.txs :: ContentsOk(tx)
  }

  /** What a block does to an open proposal: the slashes, then, in the voting period, the ballots. */
  function EventsOf(g: Gov, b: GovBlock, k: Hash): seq<Event>
    requires k in g.proposals.committed
  {
    Slashes(b.evidence, g.params.slashRatio) +
    if Open(g.proposals.committed[k], g.height + 1) then Ballots(b.txs, k) else []
  }

  lemma {:induction false} SlashesOk(evidence: seq<Address>, ratio: int)
    requires 0 <= ratio <= 100
    ensures RatiosOk(Slashes(evidence, ratio))
  {
    if evidence != [] { SlashesOk(evidence[..|evidence| - 1], ratio); }
  }

  lemma {:induction false} BallotsOk(txs: seq<GovTx>, k: Hash)
    ensures RatiosOk(Ballots(txs, k))
  {
    if txs != [] { BallotsOk(txs[..|txs| - 1], k); }
  }

  ghost predicate MidOk(g: Gov, b: GovBlock, m: Gov)
  {
    && AllChosen(g.proposals.committed)
    && m == g.(used := m.used, proposals := g.proposals.(working := m.proposals.working))
    && g.used <= m.used && m.proposals.working.Keys <= m.used
    && (forall k | k in g.proposals.committed ::
          k in m.proposals.working && m.proposals.working[k] == Run(g.proposals.committed[k], EventsOf(g, b, k)))
    && (forall k | k in m.proposals.working && k !in g.proposals.committed ::
          k !in g.used && VotingOk(m.proposals.working[k], g.height + 1))
  }

  lemma ProposalRuns(g: Gov, b: GovBlock, k: Hash, begun: Proposal)
    requires GovInv(g) && k in g.proposals.committed
    requires Chosen(g.proposals.committed[k]) && begun == Run(g.proposals.committed[k], Slashes(b.evidence, g.params.slashRatio))
    ensures AfterBallots(begun, b.txs, k, g.height + 1) == Run(g.proposals.committed[k], EventsOf(g, b, k))
  {
    var p, es := g.proposals.committed[k], Slashes(b.evidence, g.params.slashRatio);
    RunKeepsTerms(p, es);
    if Open(p, g.height + 1) {
      RunConcat(p, es, Ballots(b.txs, k));
    } else {
      assert es + [] == es;
    }
  }

  lemma RunStaysOk(g: Gov, b: GovBlock, k: Hash)
    requires GovInv(g) && k in g.proposals.committed
    ensures var p := g.proposals.committed[k];
            Chosen(p) && VotingOk(Run(p, EventsOf(g, b, k)), g.height) && SameTerms(p, Run(p, EventsOf(g, b, k)))
  {
    SlashesOk(b.evidence, g.params.slashRatio);
    BallotsOk(b.txs, k);
    RunKeepsVotingOk(g.proposals.committed[k], g.height, EventsOf(g, b, k));
    RunKeepsTerms(g.proposals.committed[k], EventsOf(g, b, k));
  }

  /** What BeginBlock leaves. */
  ghost predicate BegunOk(g: Gov, b: GovBlock, s: Gov)
  {
    && AllChosen(g.proposals.committed) && AllChosen(s.proposals.working)
    && s == g.(proposals := g.proposals.(working := s.proposals.working)) && s.proposals.working.Keys == g.proposals.committed.Keys
    && forall k | k in g.proposals.committed ::
         AfterBallots(s.proposals.working[k], b.txs, k, g.height + 1) == Run(g.proposals.committed[k], EventsOf(g, b, k))
  }

  lemma BegunLaw(g: Gov, b: GovBlock)
    requires GovInv(g)
    ensures AllChosen(g.proposals.committed) && BegunOk(g, b, Begun(g, b))
  {
    assert AllChosen(g.proposals.committed);
    PunishEachRuns(g.proposals, b.evidence, g.params.slashRatio);
    var s := Begun(g, b);
    forall k | k in g.proposals.committed
      ensures AfterBallots(s.proposals.working[k], b.txs, k, g.height + 1) == Run(g.proposals.committed[k], EventsOf(g, b, k))
    {
      ProposalRuns(g, b, k, s.proposals.working[k]);
    }
  }

  lemma MidFrom(g: Gov, b: GovBlock, s: Gov, m: Gov)
    requires AllChosen(g.proposals.committed) && g.proposals.committed.Keys <= g.used && FreshHashes(g.used, b.txs)
    requires BegunOk(g, b, s) && Delivered(s, m, b.txs)
    ensures MidOk(g, b, m)
  {
  }

  /** Inside the block every open proposal has run through its slashes and its ballots. */
  lemma MidLaw(g: Gov, b: GovBlock)
    requires GovInv(g) && BlockOk(g, b)
    ensures AllChosen(g.proposals.working) && MidOk(g, b, Mid(g, b))
  {
    BegunLaw(g, b);
    var s := Begun(g, b);
    DeliverAllLaw(s, b.vals, b.txs);
    MidFrom(g, b, s, Mid(g, b));
  }

  /** The state after freezing. */
  function AfterFreeze(m: Gov): Gov
  {
    Frozen(m, Ended(m.proposals.committed, m.height + 1))
  }

  function NewVoting(m: Gov): map<Hash, Proposal>
  {
    AfterFreeze(m).proposals.working
  }

  function NewFrozen(m: Gov): map<Hash, Proposal>
  {
    AfterFreeze(m).frozen.working - Due(m.frozen.committed, m.height + 1)
  }

  ghost function Brought(frozen: map<Hash, Proposal>, h: int): Option<GovParams>
  {
    LastBrought(frozen, KeysInOrder(frozen.Keys), h)
  }

  function Override(params: GovParams, brought: Option<GovParams>): GovParams
  {
    if brought.None? then params else Merge(params, brought.value)
  }

  /** The parameters of the next block: those in force, overridden by the last applied proposal that brings some. */
  ghost function NewParams(params: GovParams, frozen: map<Hash, Proposal>, h: int): GovParams
  {
    Override(params, Brought(frozen, h))
  }

  ghost predicate Closable(m: Gov)
  {
    && m.proposals.dead == {} && m.proposals.committed.Keys <= m.proposals.working.Keys
    && m.frozen == Fresh(m.frozen.committed) && (forall k | k in m.frozen.committed :: WellMade(m.frozen.committed[k]))
    && m.newParams.None? && StoredOk(m)
  }

  lemma WithinAll(s: set<Hash>, ks: seq<Hash>)
    requires forall k | k in s :: k in ks
    ensures Within(s, ks) == s
  {
  }

  lemma MoveToShape(m: Gov, ended: set<Hash>, outcomes: map<Hash, Proposal>)
    requires m.frozen == Fresh(m.frozen.committed)
    ensures var f := MoveTo(m, ended, outcomes);
            && f == m.(proposals := f.proposals, frozen := f.frozen) && f.proposals.working == m.proposals.working - ended
            && f.frozen == Overlay(m.frozen.committed, m.frozen.working + outcomes, {})
            && f.frozen.committed.Keys <= f.frozen.working.Keys
  {
  }

  lemma FreezeIs(m: Gov, ks: seq<Hash>)
    requires Closable(m) && ks == KeysInOrder(m.proposals.committed.Keys)
    ensures Freeze(m, ks, m.height + 1) == Some(AfterFreeze(m))
  {
    KeysAreListed(m.proposals.committed.Keys);
    FreezeListed(m, ks, m.height + 1);
  }

  lemma FreezeListed(m: Gov, ks: seq<Hash>, h: int)
    requires Closable(m) && h == m.height + 1 && Distinct(ks) && forall k | k in m.proposals.committed.Keys :: k in ks
    ensures Freeze(m, ks, h) == Some(AfterFreeze(m))
  {
    FreezeCloses(m, ks, h);
    WithinAll(Ended(m.proposals.committed, h), ks);
  }

  lemma ApplyIs(f: Gov, ks: seq<Hash>)
    requires f.frozen.dead == {} && f.frozen.committed.Keys <= f.frozen.working.Keys && ks == KeysInOrder(f.frozen.committed.Keys)
    requires forall k | k in f.frozen.committed :: WellMade(f.frozen.committed[k])
    ensures ApplyAll(f, ks, f.height + 1)
         == Some(Applied(f, Due(f.frozen.committed, f.height + 1), LastBrought(f.frozen.committed, ks, f.height + 1)))
  {
    KeysAreListed(f.frozen.committed.Keys);
    ApplyTakes(f, ks, f.height + 1);
    WithinAll(Due(f.frozen.committed, f.height + 1), ks);
  }

  lemma AppliedCommits(f: Gov, due: set<Hash>, brought: Option<GovParams>)
    requires StoredOk(f) && f.newParams.None?
    ensures CommitGov(Applied(f, due, brought))
         == Gov(f.height + 1, Override(f.params, brought), None, Fresh(map[PARAMS_KEY := Override(f.params, brought)]),
                Fresh(f.proposals.working), Fresh(f.frozen.working - due), f.used)
  {
    var a := Applied(f, due, brought);
    assert a.stored.working == map[PARAMS_KEY := Override(f.params, brought)];
  }

  lemma ApplyAndCommitIs(f: Gov)
    requires f.frozen.dead == {} && f.frozen.committed.Keys <= f.frozen.working.Keys
    requires forall k | k in f.frozen.committed :: WellMade(f.frozen.committed[k])
    requires StoredOk(f) && f.newParams.None?
    ensures var params := NewParams(f.params, f.frozen.committed, f.height + 1);
            ApplyAndCommit(f) ==
            Some(Gov(f.height + 1, params, None, Fresh(map[PARAMS_KEY := params]),
                     Fresh(f.proposals.working), Fresh(f.frozen.working - Due(f.frozen.committed, f.height + 1)), f.used))
  {
    var brought := Brought(f.frozen.committed, f.height + 1);
    ApplyIs(f, KeysInOrder(f.frozen.committed.Keys));
    AppliedCommits(f, Due(f.frozen.committed, f.height + 1), brought);
  }

  /** EndBlock and Commit never fail, and this is what they leave. */
  lemma CloseIs(m: Gov)
    requires Closable(m)
    ensures var params := NewParams(m.params, m.frozen.committed, m.height + 1);
            Close(m) == Some(Gov(m.height + 1, params, None, Fresh(map[PARAMS_KEY := params]),
                                 Fresh(NewVoting(m)), Fresh(NewFrozen(m)), m.used))
  {
    FreezeIs(m, KeysInOrder(m.proposals.committed.Keys));
    MoveToShape(m, Ended(m.proposals.committed, m.height + 1), Outcomes(m.proposals.committed, Ended(m.proposals.committed, m.height + 1)));
    ApplyAndCommitIs(AfterFreeze(m));
  }

  lemma OutcomeWins(p: Proposal, h: int)
    requires VotingOk(p, h)
    ensures Outcome(p).major.Some? <==> exists i :: Reaches(p, i)
    ensures Outcome(p).end == p.end && Outcome(p).applying == p.applying && Outcome(p).optType == p.optType
    ensures Outcome(p).major.Some? ==> WellMade(Outcome(p))
  {
    SortSorts(MoreVotes, p.options);
    MajorExists(p, Sort(MoreVotes, p.options));
  }

  /** What one block does to the proposal with hash k. */
  ghost predicate GovStep(g: Gov, b: GovBlock, d: Gov, k: Hash)
    requires AllChosen(g.proposals.committed)
  {
    var voting, frozen, h := g.proposals.committed, g.frozen.committed, g.height + 1;
    var voting', frozen' := d.proposals.committed, d.frozen.committed;
    && d.height == h
    && (k in voting && voting[k].end >= h ==>
          k in voting' && k !in frozen' && voting'[k] == Run(voting[k], EventsOf(g, b, k)))
    && (k in voting && voting[k].end < h ==>
          && k !in voting' && (k in frozen' <==> exists i :: Reaches(voting[k], i))
          && (k in frozen' ==> frozen'[k] == Outcome(voting[k])))
    && (k in frozen && frozen[k].applying > h ==> k !in voting' && k in frozen' && frozen'[k] == frozen[k])
    && (k in frozen && frozen[k].applying <= h ==> k !in voting' && k !in frozen')
    && (k in g.used && k !in voting && k !in frozen ==> k !in voting' && k !in frozen')
    && (k in g.used ==> k in d.used)
  }

  lemma MidIsClosable(g: Gov, b: GovBlock, m: Gov)
    requires GovInv(g) && MidOk(g, b, m)
    ensures Closable(m)
  {
  }

  lemma NewParamsOk(params: GovParams, frozen: map<Hash, Proposal>, h: int)
    requires RatioOk(params) && forall k | k in frozen :: WellMade(frozen[k])
    ensures RatioOk(NewParams(params, frozen, h))
  {
    KeysAreInOrder(frozen.Keys);
    NoneBrought(frozen, KeysInOrder(frozen.Keys), h);
  }

  lemma VotingStaysOk(g: Gov, b: GovBlock, m: Gov)
    requires GovInv(g) && MidOk(g, b, m)
    ensures forall k | k in NewVoting(m) :: VotingOk(NewVoting(m)[k], g.height + 1) && k in m.used && k !in g.frozen.committed
  {
    forall k | k in NewVoting(m)
      ensures VotingOk(NewVoting(m)[k], g.height + 1) && k in m.used && k !in g.frozen.committed
    {
      if k in g.proposals.committed {
        RunStaysOk(g, b, k);
        assert g.proposals.committed[k].end >= g.height + 1;
      }
    }
  }

  lemma FrozenStaysOk(g: Gov, m: Gov)
    requires GovInv(g) && m.height == g.height && m.proposals.committed == g.proposals.committed && m.frozen == g.frozen
    requires g.used <= m.used
    ensures forall k | k in NewFrozen(m) ::
              FrozenOk(NewFrozen(m)[k], g.height + 1) && k in m.used && (k in g.frozen.committed || k !in NewVoting(m))
  {
    forall k | k in NewFrozen(m) && k !in g.frozen.committed
      ensures FrozenOk(NewFrozen(m)[k], g.height + 1)
    {
      OutcomeWins(g.proposals.committed[k], g.height);
    }
  }

  lemma BlockResult(g: Gov, b: GovBlock) returns (m: Gov, d: Gov)
    requires GovInv(g) && BlockOk(g, b)
    ensures AllChosen(g.proposals.working) && m == Mid(g, b) && MidOk(g, b, m) && RunBlock(g, b) == Some(d)
    ensures d == Gov(g.height + 1, d.params, None, Fresh(map[PARAMS_KEY := d.params]), Fresh(NewVoting(m)), Fresh(NewFrozen(m)), m.used)
    ensures d.params == NewParams(g.params, g.frozen.committed, g.height + 1)
  {
    MidLaw(g, b);
    m := Mid(g, b);
    MidIsClosable(g, b, m);
    CloseIs(m);
    d := RunBlock(g, b).value;
  }

  lemma InvFrom(g: Gov, b: GovBlock, m: Gov, d: Gov)
    requires GovInv(g) && MidOk(g, b, m)
    requires d == Gov(g.height + 1, d.params, None, Fresh(map[PARAMS_KEY := d.params]), Fresh(NewVoting(m)), Fresh(NewFrozen(m)), m.used)
    requires d.params == NewParams(g.params, g.frozen.committed, g.height + 1)
    ensures GovInv(d)
  {
    NewParamsOk(g.params, g.frozen.committed, g.height + 1);
    VotingStaysOk(g, b, m);
    FrozenStaysOk(g, m);
  }

  lemma StepHolds(g: Gov, b: GovBlock, m: Gov, d: Gov, k: Hash)
    requires GovInv(g) && MidOk(g, b, m) && d.height == g.height + 1 && d.used == m.used
    requires d.proposals.committed == NewVoting(m) && d.frozen.committed == NewFrozen(m)
    ensures GovStep(g, b, d, k)
  {
    if k in g.proposals.committed { OutcomeWins(g.proposals.committed[k], g.height); }
  }

  /** One block, seen from any proposal. */
  lemma BlockLaw(g: Gov, b: GovBlock) returns (d: Gov)
    requires GovInv(g) && BlockOk(g, b)
    ensures AllChosen(g.proposals.working) && RunBlock(g, b) == Some(d)
    ensures GovInv(d) && forall k :: GovStep(g, b, d, k)
  {
    var m;
    m, d := BlockResult(g, b);
    InvFrom(g, b, m, d);
    forall k ensures GovStep(g, b, d, k) { StepHolds(g, b, m, d, k); }
  }

  /**
   The parameters in force change only with the Commit: to the last applied proposal's, and they are then
   what the parameters ledger holds. Nothing before it in the block moves them.
   */
  lemma ParamsSwitchAtCommit(g: Gov, b: GovBlock) returns (m: Gov, f: Gov, a: Gov, d: Gov)
    requires GovInv(g) && BlockOk(g, b)
    ensures AllChosen(g.proposals.working) && m == Mid(g, b)
    ensures Freeze(m, KeysInOrder(m.proposals.committed.Keys), m.height + 1) == Some(f)
    ensures ApplyAll(f, KeysInOrder(f.frozen.committed.Keys), f.height + 1) == Some(a)
    ensures RunBlock(g, b) == Some(d)
    ensures m.params == f.params == a.params == g.params
    ensures d.params == NewParams(g.params, g.frozen.committed, g.height + 1)
    ensures d.stored.committed == map[PARAMS_KEY := d.params]
  {
    m, d := BlockResult(g, b);
    MidIsClosable(g, b, m);
    FreezeIs(m, KeysInOrder(m.proposals.committed.Keys));
    f := AfterFreeze(m);
    MoveToShape(m, Ended(m.proposals.committed, m.height + 1), Outcomes(m.proposals.committed, Ended(m.proposals.committed, m.height + 1)));
    var ks := KeysInOrder(f.frozen.committed.Keys);
    ApplyIs(f, ks);
    a := Applied(f, Due(f.frozen.committed, f.height + 1), LastBrought(f.frozen.committed, ks, f.height + 1));
  }

  /** Of the parameter proposals applied in one block only the one with the greatest hash takes effect. */
  lemma GreatestHashWins(params: GovParams, frozen: map<Hash, Proposal>, h: int, k: Hash)
    requires k in Due(frozen, h) && Brings(frozen[k]).Some?
    requires forall j | j in Due(frozen, h) && Brings(frozen[j]).Some? :: j == k || Less(j, k)
    ensures NewParams(params, frozen, h) == Merge(params, Brings(frozen[k]).value)
  {
    KeysAreInOrder(frozen.Keys);
    LastIsGreatest(frozen, KeysInOrder(frozen.Keys), h, k);
  }

  lemma NothingAppliedNothingChanges(params: GovParams, frozen: map<Hash, Proposal>, h: int)
    requires forall k | k in Due(frozen, h) :: Brings(frozen[k]).None?
    ensures NewParams(params, frozen, h) == params
  {
    KeysAreInOrder(frozen.Keys);
    NoneBrought(frozen, KeysInOrder(frozen.Keys), h);
  }

  // ----- Runs -----

  /** Where the proposal with hash k is. */
  datatype Phase = Unseen | InVoting(p: Proposal) | InFrozen(p: Proposal) | Gone

  function PhaseOf(g: Gov, k: Hash): Phase
  {
    if k in g.proposals.committed then InVoting(g.proposals.committed[k])
    else if k in g.frozen.committed then InFrozen(g.frozen.committed[k])
    else if k in g.used then Gone
    else Unseen
  }

  ghost predicate HasWinner(p: Proposal)
  {
    exists i :: Reaches(p, i)
  }

  /** What the block after height h does to a proposal. */
  ghost predicate PhaseStep(h: int, x: Phase, y: Phase)
  {
    match x
    case Unseen => true
    case InVoting(p) =>
      && h <= p.end <= p.applying
      && (h < p.end ==> y.InVoting? && SameTerms(p, y.p))
      && (h == p.end && HasWinner(p) ==> y.InFrozen? && y.p.applying == p.applying)
      && (h == p.end && !HasWinner(p) ==> y.Gone?)
    case InFrozen(p) => if p.applying <= h + 1 then y.Gone? else y == x
    case Gone => y.Gone?
  }

  lemma GovStepIsPhaseStep(g: Gov, b: GovBlock, d: Gov, k: Hash)
    requires GovInv(g) && AllChosen(g.proposals.committed) && GovStep(g, b, d, k)
    ensures PhaseStep(g.height, PhaseOf(g, k), PhaseOf(d, k)) && d.height == g.height + 1
  {
    if k in g.proposals.committed {
      var p := g.proposals.committed[k];
      OutcomeWins(p, g.height);
      RunKeepsTerms(p, EventsOf(g, b, k));
    }
  }

  /** gs are the controllers before, between and after the blocks bs. */
  ghost predicate IsTrace(gs: seq<Gov>, bs: seq<GovBlock>)
  {
    && |gs| == |bs| + 1 && GovInv(gs[0])
    && forall i | 0 <= i < |bs| ::
         BlockOk(gs[i], bs[i]) && AllChosen(gs[i].proposals.working) && RunBlock(gs[i], bs[i]) == Some(gs[i + 1])
  }

  function Phases(gs: seq<Gov>, k: Hash): (xs: seq<Phase>)
    ensures |xs| == |gs| && forall i | 0 <= i < |gs| :: xs[i] == PhaseOf(gs[i], k)
  {
    seq(|gs|, i requires 0 <= i < |gs| => PhaseOf(gs[i], k))
  }

  /** xs are the phases of a proposal from height h on. */
  ghost predicate Life(xs: seq<Phase>, h: int)
  {
    forall i | 0 <= i < |xs| - 1 :: PhaseStep(h + i, xs[i], xs[i + 1])
  }

  /** In every reachable state the invariant holds. */
  lemma {:induction false} TraceKeepsInv(gs: seq<Gov>, bs: seq<GovBlock>, i: nat)
    requires IsTrace(gs, bs) && i < |gs|
    ensures GovInv(gs[i]) && gs[i].height == gs[0].height + i
  {
    if i > 0 {
      TraceKeepsInv(gs, bs, i - 1);
      var d := BlockLaw(gs[i - 1], bs[i - 1]);
      GovStepIsPhaseStep(gs[i - 1], bs[i - 1], d, []);
    }
  }

  lemma TraceStep(gs: seq<Gov>, bs: seq<GovBlock>, k: Hash, i: nat)
    requires IsTrace(gs, bs) && i < |bs|
    ensures PhaseStep(gs[0].height + i, PhaseOf(gs[i], k), PhaseOf(gs[i + 1], k))
  {
    TraceKeepsInv(gs, bs, i);
    var d := BlockLaw(gs[i], bs[i]);
    GovStepIsPhaseStep(gs[i], bs[i], d, k);
  }

  /** Every proposal goes from phase to phase. */
  lemma TraceIsLife(gs: seq<Gov>, bs: seq<GovBlock>, k: Hash)
    requires IsTrace(gs, bs)
    ensures Life(Phases(gs, k), gs[0].height)
  {
    var xs := Phases(gs, k);
    forall i | 0 <= i < |xs| - 1 ensures PhaseStep(gs[0].height + i, xs[i], xs[i + 1]) { TraceStep(gs, bs, k, i); }
  }

  lemma LifeCons(xs: seq<Phase>, h: int)
    requires |xs| > 1
    ensures Life(xs, h) <==> PhaseStep(h, xs[0], xs[1]) && Life(xs[1..], h + 1)
  {
    if Life(xs, h) {
      assert PhaseStep(h + 0, xs[0], xs[0 + 1]);
      forall i | 0 <= i < |xs[1..]| - 1 ensures PhaseStep(h + 1 + i, xs[1..][i], xs[1..][i + 1]) {
        assert PhaseStep(h + (i + 1), xs[i + 1], xs[i + 1 + 1]);
      }
    }
    if PhaseStep(h, xs[0], xs[1]) && Life(xs[1..], h + 1) {
      forall i | 0 <= i < |xs| - 1 ensures PhaseStep(h + i, xs[i], xs[i + 1]) {
        if i > 0 { assert PhaseStep(h + 1 + (i - 1), xs[1..][i - 1], xs[1..][i - 1 + 1]); }
      }
    }
  }

  /** The heights of the blocks that apply the proposal: it is frozen and its applying height has come. */
  function AppliedHeights(xs: seq<Phase>, h: int): seq<int>
  {
    if |xs| <= 1 then []
    else if xs[0].InFrozen? && xs[0].p.applying <= h + 1 then [h + 1] + AppliedHeights(xs[1..], h + 1)
    else AppliedHeights(xs[1..], h + 1)
  }

  /** The one height once the run has got there; before that, none. */
  function OnceAt(first: int, last: int): seq<int>
  {
    if last < first then [] else [first]
  }

  function Max(a: int, b: int): int
  {
    if a < b then b else a
  }

  lemma {:induction false} GoneStaysGone(xs: seq<Phase>, h: int)
    requires Life(xs, h) && xs != [] && xs[0].Gone?
    ensures AppliedHeights(xs, h) == []
  {
    if |xs| > 1 {
      LifeCons(xs, h);
      GoneStaysGone(xs[1..], h + 1);
    }
  }

  /** A frozen proposal is applied once: at its applying height, or at once when that has passed. */
  lemma {:induction false} FrozenIsAppliedOnce(xs: seq<Phase>, h: int)
    requires Life(xs, h) && xs != [] && xs[0].InFrozen?
    ensures AppliedHeights(xs, h) == OnceAt(Max(xs[0].p.applying, h + 1), h + |xs| - 1)
  {
    if |xs| > 1 {
      LifeCons(xs, h);
      if xs[0].p.applying <= h + 1 {
        GoneStaysGone(xs[1..], h + 1);
      } else {
        FrozenIsAppliedOnce(xs[1..], h + 1);
      }
    }
  }

  /**
   The life of a proposal p open n blocks before its end: it is still open when the n blocks have passed; the
   next block closes it on the tally it has then; and it is applied exactly once if an option has reached the
   majority in that tally, at its applying height but not before the block after the one that froze it, and
   never otherwise.
   */
  ghost predicate LivesItsLife(xs: seq<Phase>, h: int, p: Proposal, n: nat)
  {
    && (|xs| - 1 <= n ==> AppliedHeights(xs, h) == [])
    && (n < |xs| - 1 ==>
          && xs[n].InVoting? && SameTerms(p, xs[n].p) && !xs[n + 1].InVoting?
          && AppliedHeights(xs, h) == if HasWinner(xs[n].p) then OnceAt(Max(p.applying, p.end + 2), h + |xs| - 1) else [])
  }

  lemma {:induction false} LifeCycle(xs: seq<Phase>, h: int, p: Proposal, n: nat)
    requires Life(xs, h) && xs != [] && xs[0] == InVoting(p) && p.end == h + n
    ensures LivesItsLife(xs, h, p, n)
    decreases n
  {
    if |xs| > 1 {
      LifeCons(xs, h);
      if n > 0 {
        LifeCycle(xs[1..], h + 1, xs[1].p, n - 1);
      } else if HasWinner(p) {
        FrozenIsAppliedOnce(xs[1..], h + 1);
      } else {
        GoneStaysGone(xs[1..], h + 1);
      }
    }
  }

  /** Every open proposal of every run lives this life. */
  lemma ProposalLifeCycle(gs: seq<Gov>, bs: seq<GovBlock>, k: Hash, p: Proposal)
    requires IsTrace(gs, bs) && PhaseOf(gs[0], k) == InVoting(p)
    ensures p.end >= gs[0].height && LivesItsLife(Phases(gs, k), gs[0].height, p, p.end - gs[0].height)
  {
    assert VotingOk(p, gs[0].height);
    TraceIsLife(gs, bs, k);
    LifeCycle(Phases(gs, k), gs[0].height, p, p.end - gs[0].height);
  }

  /** InitLedger: the genesis parameters are in force and pending. */
  function InitialGov(params: GovParams): Gov
  {
    Gov(0, params, None, Overlay(map[], map[PARAMS_KEY := params], {}), Fresh(map[]), Fresh(map[]), {})
  }

  lemma InitialIsInv(params: GovParams)
    requires RatioOk(params)
    ensures GovInv(InitialGov(params))
  {
  }
}

/**
 ctrlers/gov/ctrler.go: proposals move from the voting ledger to the frozen ledger and are
 applied to the governance parameters, which switch only when a block is committed.
 */
module Governance {
  import opened Prelude
  import opened Overlays
  import opened Amounts
  import opened Delegatees
  import opened GovernanceParams
  import opened Proposals

  /**
   The controller between blocks height and height + 1, or inside the block after height. stored is the
   parameters ledger, newParams the parameters waiting for the commit, used the hashes of all proposals so far.
   */
  datatype Gov = Gov(
    height: int, params: GovParams, newParams: Option<GovParams>, stored: Overlay<bool, GovParams>,
    proposals: Overlay<Hash, Proposal>, frozen: Overlay<Hash, Proposal>, used: set<Hash>)

  /** The one key of the parameters ledger. */
  const PARAMS_KEY := true

  datatype GovTx =
    | Propose(hash: Hash, to: Address, from: Address, optType: OptType, start: int, blocks: int, applying: int, contents: seq<Content>)
    | Ballot(to: Address, target: Hash, voter: Address, choice: int)

  /** The 20 zero bytes that governance transactions are sent to. */
  const ZERO_ADDRESS: Address := [0, 0, 0, 0, 0, 0, 0, 0, 0, 0, 0, 0, 0, 0, 0, 0, 0, 0, 0, 0]

  // ----- Transactions -----

  predicate IsValidator(vals: seq<Validator>, a: Address)
  {
    exists i :: 0 <= i < |vals| && vals[i].addr == a
  }

  predicate ValidProposal(g: Gov, vals: seq<Validator>, tx: GovTx)
    requires tx.Propose?
  {
    var end := ToInt64(tx.start + tx.blocks);
    && tx.to == ZERO_ADDRESS && IsValidator(vals, tx.from)
    && g.proposals.Get(tx.hash).None?
    && tx.start > g.height + 1
    && g.params.minVotingPeriodBlocks <= tx.blocks <= g.params.maxVotingPeriodBlocks
    && (tx.optType == ParamsType ==> forall c | c in tx.contents :: c.Params?)
    && tx.start <= end
    && tx.applying >= ToInt64(end + g.params.lazyApplyingBlocks) && tx.applying >= end
    && tx.contents != []
  }

  predicate ValidBallot(g: Gov, tx: GovTx)
    requires tx.Ballot?
  {
    var p := g.proposals.Get(tx.target);
    && tx.to == ZERO_ADDRESS && p.Some?
    && tx.voter in p.value.voters
    && 0 <= tx.choice < |p.value.options|
    && p.value.start <= g.height + 1 <= p.value.end
  }

  function Deliver(g: Gov, vals: seq<Validator>, tx: GovTx): Gov
    requires AllChosen(g.proposals.working)
  {
    match tx
    case Propose(hash, _, _, optType, start, blocks, applying, contents) =>
      var g' := g.(used := g.used + {hash});
      if !ValidProposal(g, vals, tx) then g'
      else g'.(proposals := g.proposals.Set(hash, NewProposal(optType, start, blocks, applying, vals, contents)))
    case Ballot(_, target, voter, choice) =>
      if !ValidBallot(g, tx) then g
      else g.(proposals := g.proposals.Set(target, Vote(g.proposals.Get(target).value, voter, choice)))
  }

  function DeliverAll(g: Gov, vals: seq<Validator>, txs: seq<GovTx>): (r: Gov)
    requires AllChosen(g.proposals.working)
    ensures AllChosen(r.proposals.working)
  {
    if txs == [] then g else Deliver(DeliverAll(g, vals, txs[..|txs| - 1]), vals, txs[|txs| - 1])
  }

  predicate AllChosen(m: map<Hash, Proposal>)
  {
    forall k | k in m :: Chosen(m[k])
  }

  /** Heights and numbers of blocks are signed 64-bit integers. */
  predicate IsInt64(x: int)
  {
    -I63 <= x < I63
  }

  lemma ToInt64Is(x: int)
    requires -I63 <= x < I63 + U64
    ensures ToInt64(x) == if x < I63 then x else x - U64
  {
  }

  /**
   Which proposals are taken: those of a validator, sent to the zero address, with a voting period of a permitted
   length that is still to come, options of the type, and an applying height that waits long enough. The wait after the
   last vote is not asked for when adding it leaves 64 bits.
   */
  ghost predicate IsAcceptable(g: Gov, vals: seq<Validator>, tx: GovTx)
    requires tx.Propose?
  {
    var end := tx.start + tx.blocks;
    && tx.to == ZERO_ADDRESS && (exists v | v in vals :: v.addr == tx.from) && g.proposals.Get(tx.hash).None?
    && tx.start > g.height + 1 && end < I63
    && g.params.minVotingPeriodBlocks <= tx.blocks <= g.params.maxVotingPeriodBlocks && tx.blocks >= 0
    && tx.applying >= end && (end + g.params.lazyApplyingBlocks < I63 ==> tx.applying >= end + g.params.lazyApplyingBlocks)
    && tx.contents != [] && (tx.optType == ParamsType ==> forall c | c in tx.contents :: c.Params?)
  }

  lemma AcceptableIsValid(g: Gov, vals: seq<Validator>, tx: GovTx)
    requires tx.Propose? && g.height >= 0 && IsInt64(tx.start) && IsInt64(tx.blocks) && IsInt64(tx.applying)
    requires IsInt64(g.params.lazyApplyingBlocks)
    ensures ValidProposal(g, vals, tx) <==> IsAcceptable(g, vals, tx)
  {
    var end := tx.start + tx.blocks;
    if tx.start > 0 {
      ToInt64Is(end);
      if 0 <= end < I63 { ToInt64Is(end + g.params.lazyApplyingBlocks); }
    }
    assert IsValidator(vals, tx.from) <==> exists v | v in vals :: v.addr == tx.from by {
      if v :| v in vals && v.addr == tx.from {
        var i :| 0 <= i < |vals| && vals[i] == v;
      }
    }
  }

  /**
   A proposal is stored exactly when it is acceptable, with its own terms: the validators are its voters, with their
   powers and no choice, and no option has a vote. Everything else is as it was.
   */
  lemma ProposalIsStored(g: Gov, vals: seq<Validator>, tx: GovTx) returns (d: Gov, p: Proposal)
    requires tx.Propose? && AllChosen(g.proposals.working) && DistinctVals(vals)
    requires g.height >= 0 && IsInt64(tx.start) && IsInt64(tx.blocks) && IsInt64(tx.applying) && IsInt64(g.params.lazyApplyingBlocks)
    ensures d == Deliver(g, vals, tx)
    ensures d == g.(used := g.used + {tx.hash}, proposals := if IsAcceptable(g, vals, tx) then g.proposals.Set(tx.hash, p) else g.proposals)
    ensures IsAcceptable(g, vals, tx) ==>
              && p.optType == tx.optType && p.start == tx.start && p.end == tx.start + tx.blocks && p.applying == tx.applying
              && p.major.None?
    ensures |p.options| == |tx.contents| && forall i | 0 <= i < |p.options| :: p.options[i] == VoteOption(tx.contents[i], 0)
    ensures forall a :: a in p.voters <==> exists v | v in vals :: v.addr == a
    ensures forall v | v in vals :: v.addr in p.voters && p.voters[v.addr] == Voter(v.power, -1)
    ensures p.total == SumSeq(ValidatorPower, vals) && (0 <= p.total < I63 / 2 ==> p.majority == 2 * p.total / 3)
  {
    d := Deliver(g, vals, tx);
    p := NewProposal(tx.optType, tx.start, tx.blocks, tx.applying, vals, tx.contents);
    AcceptableIsValid(g, vals, tx);
    VotersAreValidators(vals);
    if 0 <= p.total < I63 { MajorityIsTwoThirds(p.total); }
    if IsAcceptable(g, vals, tx) { ToInt64Is(tx.start + tx.blocks); }
  }

  // ----- BeginBlock -----

  /** The pending proposal after one punishment: the committed version says who is a voter. */
  function PunishedProposal(c: map<Hash, Proposal>, w: map<Hash, Proposal>, k: Hash, a: Address, ratio: int): (r: Proposal)
    requires k in w && AllChosen(w)
    ensures Chosen(r)
  {
    if k in c && a in c[k].voters && a in w[k].voters then Punish(w[k], a, ratio) else w[k]
  }

  function PunishIn(o: Overlay<Hash, Proposal>, a: Address, ratio: int): (r: Overlay<Hash, Proposal>)
    requires AllChosen(o.working)
    ensures AllChosen(r.working)
  {
    o.(working := map k | k in o.working :: PunishedProposal(o.committed, o.working, k, a, ratio))
  }

  function PunishEach(o: Overlay<Hash, Proposal>, evidence: seq<Address>, ratio: int): (r: Overlay<Hash, Proposal>)
    requires AllChosen(o.working)
    ensures AllChosen(r.working)
  {
    if evidence == [] then o else PunishIn(PunishEach(o, evidence[..|evidence| - 1], ratio), evidence[|evidence| - 1], ratio)
  }

  // ----- EndBlock -----

  /** A closed proposal: its options are sorted and the winner, if any, noted. */
  function Outcome(p: Proposal): Proposal
  {
    var sorted := Sort(MoreVotes, p.options);
    if sorted == [] then p else WithMajor(p, sorted)
  }

  /** The iteration order of the tree. */
  ghost predicate TreeOrder(ks: seq<Hash>, s: set<Hash>)
  {
    && (forall k :: k in ks <==> k in s)
    && (forall i, j | 0 <= i < j < |ks| :: Less(ks[i], ks[j]))
  }

  /** freezeProposals, over the committed proposals in tree order; None when a deletion fails. */
  function Freeze(g: Gov, ks: seq<Hash>, h: int): Option<Gov>
  {
    if ks == [] then Some(g)
    else
      var r := Freeze(g, ks[..|ks| - 1], h);
      if r.None? then None else FreezeOne(r.value, ks[|ks| - 1], h)
  }

  function FreezeOne(g: Gov, k: Hash, h: int): Option<Gov>
  {
    if k !in g.proposals.committed || g.proposals.committed[k].end >= h then Some(g)
    else if g.proposals.Get(k).None? then None
    else
      var outcome := Outcome(g.proposals.committed[k]);
      Some(g.(proposals := g.proposals.Del(k), frozen := if outcome.major.Some? then g.frozen.Set(k, outcome) else g.frozen))
  }

  /** applyProposals, over the committed frozen proposals in tree order; None when it reports an error. */
  function ApplyAll(g: Gov, ks: seq<Hash>, h: int): Option<Gov>
  {
    if ks == [] then Some(g)
    else
      var r := ApplyAll(g, ks[..|ks| - 1], h);
      if r.None? then None else ApplyOne(r.value, ks[|ks| - 1], h)
  }

  function ApplyOne(g: Gov, k: Hash, h: int): Option<Gov>
  {
    if k !in g.frozen.committed || g.frozen.committed[k].applying > h then Some(g)
    else if g.frozen.Get(k).None? then None
    else
      var p := g.frozen.committed[k];
      var g' := g.(frozen := g.frozen.Del(k));
      if p.major.None? || p.optType != ParamsType then Some(g')
      else if !p.major.value.content.Params? then None
      else
        var params := Merge(g.params, p.major.value.content.params);
        Some(g'.(stored := g.stored.Set(PARAMS_KEY, params), newParams := Some(params)))
  }

  function CommitGov(g: Gov): Gov
  {
    g.(height := g.height + 1,
       stored := g.stored.Commit(), proposals := g.proposals.Commit(), frozen := g.frozen.Commit(),
       params := if g.newParams.Some? then g.newParams.value else g.params, newParams := None)
  }
}

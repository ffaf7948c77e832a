/**
 ctrlers/gov/proposal: a proposal with its voters and options. Votes are cancelled and cast
 again, voters are slashed, and the tally has to follow.
 */
module Proposals {
  import opened Prelude
  import opened Amounts
  import opened Delegatees
  import opened GovernanceParams

  /** choice is the index of an option, or NOT_CHOICE. */
  datatype Voter = Voter(power: int, choice: int)

  const NOT_CHOICE := -1

  /** An option of a parameter proposal is a set of parameters; of any other proposal, a text. */
  datatype Content = Params(params: GovParams) | Text(text: Bytes)

  datatype VoteOption = VoteOption(content: Content, votes: int)

  datatype OptType = ParamsType | CommonType

  datatype Proposal = Proposal(
    optType: OptType, start: int, end: int, applying: int, total: int, majority: int,
    voters: map<Address, Voter>, options: seq<VoteOption>, major: Option<VoteOption>)

  /** A conversion to int64. */
  function ToInt64(x: int): int
  {
    (x + I63) % U64 - I63
  }

  function MajorityOf(total: int): int
  {
    Quo(ToInt64(total * 2), 3)
  }

  /** The share of a voter's power that a punishment takes; the operands go through uint64. */
  function SlashOf(power: int, ratio: int): int
  {
    ToInt64((power % U64) * (ratio % U64) / 100)
  }

  /** The stored majority is two thirds of the total, rounded down, exactly while doubling the total does not wrap. */
  lemma MajorityIsTwoThirds(total: int)
    requires 0 <= total < I63
    ensures MajorityOf(total) == 2 * total / 3 <==> total < I63 / 2
  {
  }

  lemma SlashIsShare(power: int, ratio: int)
    requires 0 <= power < I63 && 0 <= ratio <= 100
    ensures SlashOf(power, ratio) == power * ratio / 100
    ensures 0 <= SlashOf(power, ratio) <= power
  {
    assert 0 <= power * ratio <= power * 100;
  }

  // ----- Operations -----

  function AddVotes(options: seq<VoteOption>, i: nat, power: int): seq<VoteOption>
    requires i < |options|
  {
    options[i := options[i].(votes := options[i].votes + power)]
  }

  predicate Chosen(p: Proposal)
  {
    forall a | a in p.voters :: NOT_CHOICE <= p.voters[a].choice < |p.options|
  }

  function Cancel(p: Proposal, a: Address): (r: Proposal)
    requires Chosen(p) && a in p.voters
    ensures Chosen(r)
  {
    var v := p.voters[a];
    if v.choice < 0 then p
    else p.(options := AddVotes(p.options, v.choice, -v.power), voters := p.voters[a := v.(choice := NOT_CHOICE)])
  }

  function Choose(p: Proposal, a: Address, choice: int): (r: Proposal)
    requires Chosen(p) && a in p.voters && choice < |p.options|
    ensures Chosen(r)
  {
    var v := p.voters[a];
    if choice < 0 then p
    else p.(options := AddVotes(p.options, choice, v.power), voters := p.voters[a := v.(choice := choice)])
  }

  function Vote(p: Proposal, a: Address, choice: int): Proposal
    requires Chosen(p) && a in p.voters && choice < |p.options|
  {
    Choose(Cancel(p, a), a, choice)
  }

  /** What a punished voter keeps; a voter left without power is removed. */
  function Weaken(p: Proposal, a: Address, power: int): (r: Proposal)
    requires Chosen(p) && a in p.voters
    ensures Chosen(r)
  {
    p.(voters := if power <= 0 then p.voters - {a} else p.voters[a := p.voters[a].(power := power)])
  }

  function Punish(p: Proposal, a: Address, ratio: int): Proposal
    requires Chosen(p) && a in p.voters
  {
    var v := p.voters[a];
    var slash := SlashOf(v.power, ratio);
    var w := Weaken(Cancel(p, a), a, v.power - slash);
    var voted := if v.power - slash <= 0 then w else Choose(w, a, v.choice);
    voted.(total := p.total - slash, majority := MajorityOf(p.total - slash))
  }

  // ----- The tally -----

  function VoterPower(v: Voter): int
  {
    v.power
  }

  function SupportOf(i: int): Voter -> int
  {
    (v: Voter) => if v.choice == i then v.power else 0
  }

  /** The summed power of the voters who chose option i. */
  ghost function Support(voters: map<Address, Voter>, i: int): int
  {
    SumMap(SupportOf(i), voters)
  }

  ghost function VotingPower(voters: map<Address, Voter>): int
  {
    SumMap(VoterPower, voters)
  }

  ghost predicate Counted(p: Proposal)
  {
    && Chosen(p)
    && (forall a | a in p.voters :: p.voters[a].power >= 0)
    && (forall i | 0 <= i < |p.options| :: p.options[i].votes == Support(p.voters, i))
  }

  ghost predicate Tallied(p: Proposal)
  {
    Counted(p) && p.total == VotingPower(p.voters) && p.majority == MajorityOf(p.total)
  }

  /** Replacing one voter moves the support of each option by what that voter gives it. */
  lemma VoterReplaced(voters: map<Address, Voter>, a: Address, v: Voter)
    requires a in voters
    ensures forall i :: Support(voters[a := v], i) == Support(voters, i) - SupportOf(i)(voters[a]) + SupportOf(i)(v)
    ensures VotingPower(voters[a := v]) == VotingPower(voters) - voters[a].power + v.power
  {
    forall i ensures Support(voters[a := v], i) == Support(voters, i) - SupportOf(i)(voters[a]) + SupportOf(i)(v) {
      SumMapUpdate(SupportOf(i), voters, a, v);
    }
    SumMapUpdate(VoterPower, voters, a, v);
  }

  lemma VoterRemoved(voters: map<Address, Voter>, a: Address)
    requires a in voters
    ensures forall i :: Support(voters - {a}, i) == Support(voters, i) - SupportOf(i)(voters[a])
    ensures VotingPower(voters - {a}) == VotingPower(voters) - voters[a].power
  {
    forall i ensures Support(voters - {a}, i) == Support(voters, i) - SupportOf(i)(voters[a]) {
      SumMapRemove(SupportOf(i), voters, a);
    }
    SumMapRemove(VoterPower, voters, a);
  }

  lemma CancelCounts(p: Proposal, a: Address)
    requires Counted(p) && a in p.voters
    ensures var r := Cancel(p, a); Counted(r) && VotingPower(r.voters) == VotingPower(p.voters)
  {
    VoterReplaced(p.voters, a, p.voters[a].(choice := NOT_CHOICE));
  }

  lemma ChooseCounts(p: Proposal, a: Address, choice: int)
    requires Counted(p) && a in p.voters && choice < |p.options| && p.voters[a].choice < 0
    ensures var r := Choose(p, a, choice); Counted(r) && VotingPower(r.voters) == VotingPower(p.voters)
  {
    VoterReplaced(p.voters, a, p.voters[a].(choice := choice));
  }

  lemma WeakenCounts(p: Proposal, a: Address, power: int)
    requires Counted(p) && a in p.voters && p.voters[a].choice < 0
    ensures var r := Weaken(p, a, power);
            Counted(r) && VotingPower(r.voters) == VotingPower(p.voters) - p.voters[a].power + (if power <= 0 then 0 else power)
  {
    if power <= 0 {
      VoterRemoved(p.voters, a);
    } else {
      VoterReplaced(p.voters, a, p.voters[a].(power := power));
    }
  }

  /** A first vote, a change of vote and a withdrawn vote all keep the tally. */
  lemma VoteKeepsTally(p: Proposal, a: Address, choice: int)
    requires Tallied(p) && a in p.voters && choice < |p.options|
    ensures Tallied(Vote(p, a, choice))
  {
    CancelCounts(p, a);
    ChooseCounts(Cancel(p, a), a, choice);
  }

  /** A punishment keeps the tally exactly when it takes no more than the voter has. */
  lemma PunishKeepsTallyExactly(p: Proposal, a: Address, ratio: int)
    requires Tallied(p) && a in p.voters
    ensures Tallied(Punish(p, a, ratio)) <==> SlashOf(p.voters[a].power, ratio) <= p.voters[a].power
  {
    var v := p.voters[a];
    var power := v.power - SlashOf(v.power, ratio);
    var c := Cancel(p, a);
    CancelCounts(p, a);
    WeakenCounts(c, a, power);
    if power > 0 { ChooseCounts(Weaken(c, a, power), a, v.choice); }
  }

  // ----- A new proposal -----

  datatype Validator = Validator(addr: Address, power: int)

  function ValidatorPower(v: Validator): int
  {
    v.power
  }

  function VotersOf(vals: seq<Validator>): (r: map<Address, Voter>)
    ensures forall a | a in r :: r[a].choice == NOT_CHOICE
  {
    if vals == [] then map[]
    else VotersOf(vals[..|vals| - 1])[vals[|vals| - 1].addr := Voter(vals[|vals| - 1].power, NOT_CHOICE)]
  }

  function OptionsOf(contents: seq<Content>): (r: seq<VoteOption>)
    ensures |r| == |contents|
    ensures forall i | 0 <= i < |r| :: r[i] == VoteOption(contents[i], 0)
  {
    seq(|contents|, i requires 0 <= i < |contents| => VoteOption(contents[i], 0))
  }

  function NewProposal(optType: OptType, start: int, blocks: int, applying: int, vals: seq<Validator>,
                       contents: seq<Content>): Proposal
  {
    var total := SumSeq(ValidatorPower, vals);
    Proposal(optType, start, ToInt64(start + blocks), applying, total, MajorityOf(total), VotersOf(vals), OptionsOf(contents), None)
  }

  predicate DistinctVals(vals: seq<Validator>)
  {
    forall i, j | 0 <= i < j < |vals| :: vals[i].addr != vals[j].addr
  }

  /** The voters are the validators, one each. */
  lemma {:induction false} VotersAreValidators(vals: seq<Validator>)
    requires DistinctVals(vals)
    ensures forall a | a in VotersOf(vals) :: exists i :: 0 <= i < |vals| && vals[i].addr == a
    ensures forall i | 0 <= i < |vals| ::
              vals[i].addr in VotersOf(vals) && VotersOf(vals)[vals[i].addr] == Voter(vals[i].power, NOT_CHOICE)
  {
    if vals != [] {
      VotersAreValidators(vals[..|vals| - 1]);
    }
  }

  lemma {:induction false} VotersCounted(vals: seq<Validator>)
    requires DistinctVals(vals)
    ensures VotingPower(VotersOf(vals)) == SumSeq(ValidatorPower, vals)
  {
    if vals != [] {
      var front, v := vals[..|vals| - 1], vals[|vals| - 1];
      VotersCounted(front);
      VotersAreValidators(front);
      assert vals == front + [v];
      SumSeqAppend(ValidatorPower, front, v);
      SumMapUpdate(VoterPower, VotersOf(front), v.addr, Voter(v.power, NOT_CHOICE));
    }
  }

  lemma {:induction false} NoSupport(voters: map<Address, Voter>, i: int)
    requires forall a | a in voters :: voters[a].choice != i
    ensures Support(voters, i) == 0
    decreases |voters|
  {
    if voters != map[] {
      var a :| a in voters;
      NoSupport(voters - {a}, i);
      SumMapExtract(SupportOf(i), voters, a);
    }
  }

  /** A proposal starts tallied, with the validators as voters who have not chosen. */
  lemma NewIsTallied(optType: OptType, start: int, blocks: int, applying: int, vals: seq<Validator>, contents: seq<Content>)
    requires DistinctVals(vals) && forall i | 0 <= i < |vals| :: vals[i].power >= 0
    ensures Tallied(NewProposal(optType, start, blocks, applying, vals, contents))
  {
    VotersCounted(vals);
    VotersAreValidators(vals);
    forall i | 0 <= i < |contents| ensures Support(VotersOf(vals), i) == 0 { NoSupport(VotersOf(vals), i); }
  }

  // ----- Runs -----

  datatype Event = Voting(addr: Address, choice: int) | Slashing(addr: Address, ratio: int)

  function Step(p: Proposal, e: Event): (r: Proposal)
    requires Chosen(p)
    ensures Chosen(r) && |r.options| == |p.options|
  {
    match e
    case Voting(a, choice) => if a in p.voters && choice < |p.options| then Vote(p, a, choice) else p
    case Slashing(a, ratio) => if a in p.voters then Punish(p, a, ratio) else p
  }

  function Run(p: Proposal, es: seq<Event>): (r: Proposal)
    requires Chosen(p)
    ensures Chosen(r) && |r.options| == |p.options|
  {
    if es == [] then p else Step(Run(p, es[..|es| - 1]), es[|es| - 1])
  }

  predicate RatiosOk(es: seq<Event>)
  {
    forall e | e in es && e.Slashing? :: 0 <= e.ratio <= 100
  }

  lemma StepKeepsTally(p: Proposal, e: Event)
    requires Tallied(p) && p.total < I63 && (e.Slashing? ==> 0 <= e.ratio <= 100)
    ensures var r := Step(p, e); Tallied(r) && r.total <= p.total
  {
    match e
    case Voting(a, choice) => if a in p.voters && choice < |p.options| { VoteKeepsTally(p, a, choice); }
    case Slashing(a, ratio) =>
      if a in p.voters {
        SumMapBounds(VoterPower, p.voters, a);
        SlashIsShare(p.voters[a].power, ratio);
        PunishKeepsTallyExactly(p, a, ratio);
      }
  }

  /** Through any mix of votes, changed votes and slashes the tally is exact. */
  lemma {:induction false} RunsKeepTally(p: Proposal, es: seq<Event>)
    requires Tallied(p) && p.total < I63 && RatiosOk(es)
    ensures var r := Run(p, es); Tallied(r) && r.total <= p.total
  {
    if es != [] {
      var front := es[..|es| - 1];
      assert RatiosOk(front) by { assert forall e | e in front :: e in es; }
      RunsKeepTally(p, front);
      assert es[|es| - 1] in es;
      StepKeepsTally(Run(p, front), es[|es| - 1]);
    }
  }

  /** What an event does to one voter: others' events do nothing, a vote replaces the choice, a slash takes its share. */
  function VoterStep(v: Option<Voter>, a: Address, e: Event, n: nat): Option<Voter>
  {
    if e.addr != a || v.None? then v
    else
      match e
      case Voting(_, choice) =>
        if choice >= n then v else Some(v.value.(choice := if choice < 0 then NOT_CHOICE else choice))
      case Slashing(_, ratio) =>
        var power := v.value.power - SlashOf(v.value.power, ratio);
        if power <= 0 then None else Some(v.value.(power := power))
  }

  function VoterRun(v: Option<Voter>, a: Address, es: seq<Event>, n: nat): Option<Voter>
  {
    if es == [] then v else VoterStep(VoterRun(v, a, es[..|es| - 1], n), a, es[|es| - 1], n)
  }

  function VoterAt(p: Proposal, a: Address): Option<Voter>
  {
    if a in p.voters then Some(p.voters[a]) else None
  }

  lemma StepIsVoterStep(p: Proposal, e: Event, a: Address)
    requires Chosen(p)
    ensures VoterAt(Step(p, e), a) == VoterStep(VoterAt(p, a), a, e, |p.options|)
  {
  }

  /**
   Each voter's standing depends only on that voter's own events. With RunsKeepTally: after any run the
   votes of an option are the summed remaining power of the voters whose latest vote it was.
   */
  lemma {:induction false} VotersAreIndependent(p: Proposal, es: seq<Event>, a: Address)
    requires Chosen(p)
    ensures VoterAt(Run(p, es), a) == VoterRun(VoterAt(p, a), a, es, |p.options|)
  {
    if es != [] {
      VotersAreIndependent(p, es[..|es| - 1], a);
      StepIsVoterStep(Run(p, es[..|es| - 1]), es[|es| - 1], a);
    }
  }

  lemma {:induction false} NeverJoins(a: Address, es: seq<Event>, n: nat)
    ensures VoterRun(None, a, es, n).None?
  {
    if es != [] { NeverJoins(a, es[..|es| - 1], n); }
  }

  /** The voters left after some events, each worked out alone from its own votes and slashes. */
  function Standing(voters: map<Address, Voter>, es: seq<Event>, n: nat): map<Address, Voter>
  {
    map a | a in voters && VoterRun(Some(voters[a]), a, es, n).Some? :: VoterRun(Some(voters[a]), a, es, n).value
  }

  /**
   From its creation through any votes, changed votes and slashes, the votes of each option are the summed
   remaining power of the voters whose latest vote it is, the total is the summed remaining power of all
   voters, and the majority is computed from that total.
   */
  lemma TallyIsExact(optType: OptType, start: int, blocks: int, applying: int, vals: seq<Validator>,
                     contents: seq<Content>, es: seq<Event>)
    requires DistinctVals(vals) && forall i | 0 <= i < |vals| :: vals[i].power >= 0
    requires SumSeq(ValidatorPower, vals) < I63 && RatiosOk(es)
    ensures var p := NewProposal(optType, start, blocks, applying, vals, contents);
            var standing := Standing(VotersOf(vals), es, |contents|);
            Chosen(p) &&
            var r := Run(p, es);
            && (forall i | 0 <= i < |r.options| :: r.options[i].votes == Support(standing, i))
            && r.total == VotingPower(standing) && r.majority == MajorityOf(r.total)
  {
    var p := NewProposal(optType, start, blocks, applying, vals, contents);
    NewIsTallied(optType, start, blocks, applying, vals, contents);
    RunsKeepTally(p, es);
    var r := Run(p, es);
    forall a ensures VoterAt(r, a) == VoterRun(VoterAt(p, a), a, es, |contents|) { VotersAreIndependent(p, es, a); }
    forall a | a !in p.voters ensures a !in r.voters { NeverJoins(a, es, |contents|); assert VoterAt(r, a).None?; }
    var standing := Standing(p.voters, es, |contents|);
    forall a ensures a in r.voters <==> a in standing { assert VoterAt(r, a) == VoterRun(VoterAt(p, a), a, es, |contents|); }
    forall a | a in r.voters ensures r.voters[a] == standing[a] { assert VoterAt(r, a) == VoterRun(VoterAt(p, a), a, es, |contents|); }
    assert r.voters == standing;
  }

  // ----- The major option -----

  predicate MoreVotes(a: VoteOption, b: VoteOption)
  {
    a.votes > b.votes
  }

  /** updateMajorOption after the options have been sorted into some order. */
  function WithMajor(p: Proposal, sorted: seq<VoteOption>): Proposal
    requires sorted != []
  {
    p.(options := sorted, major := if sorted[0].votes >= p.majority then Some(sorted[0]) else p.major)
  }

  ghost predicate Reaches(p: Proposal, i: int)
  {
    0 <= i < |p.options| && p.options[i].votes >= p.majority
  }

  /** However the sort breaks ties, an option is picked exactly when some option reaches the majority, and it reaches it. */
  lemma MajorExists(p: Proposal, sorted: seq<VoteOption>)
    requires p.options != [] && SortOf(MoreVotes, p.options, sorted) && p.major.None?
    ensures sorted != []
    ensures WithMajor(p, sorted).major.Some? <==> exists i :: Reaches(p, i)
    ensures WithMajor(p, sorted).major.Some? ==>
              exists i :: Reaches(p, i) && p.options[i] == WithMajor(p, sorted).major.value
  {
    SameElements(p.options, sorted);
    assert sorted[0] in p.options;
    var top :| 0 <= top < |p.options| && p.options[top] == sorted[0];
    if sorted[0].votes >= p.majority {
      assert Reaches(p, top);
    }
    if i :| Reaches(p, i) {
      assert p.options[i] in sorted;
      var j :| 0 <= j < |sorted| && sorted[j] == p.options[i];
      assert j == 0 || !MoreVotes(sorted[j], sorted[0]);
    }
  }

  /** Different options are chosen by different voters. */
  lemma {:induction false} SupportsAreDisjoint(voters: map<Address, Voter>, i: int, j: int)
    requires i != j && forall a | a in voters :: voters[a].power >= 0
    ensures Support(voters, i) >= 0 && Support(voters, i) + Support(voters, j) <= VotingPower(voters)
    decreases |voters|
  {
    if voters != map[] {
      var a :| a in voters;
      SupportsAreDisjoint(voters - {a}, i, j);
      SumMapExtract(SupportOf(i), voters, a);
      SumMapExtract(SupportOf(j), voters, a);
      SumMapExtract(VoterPower, voters, a);
    }
  }

  /** The totals whose two thirds, rounded down, are more than half. */
  predicate Decisive(total: int)
  {
    total == 3 || total >= 5
  }

  lemma MajorityIsMoreThanHalf(total: int)
    requires 0 <= total < I63 / 2
    ensures 2 * MajorityOf(total) > total <==> Decisive(total)
  {
    MajorityIsTwoThirds(total);
  }

  /** From a decisive total on, an option that reaches the majority is the only one and has more than half of the power. */
  lemma MajorityIsUnique(p: Proposal, i: int, j: int)
    requires Tallied(p) && p.total < I63 / 2 && Decisive(p.total)
    requires Reaches(p, i) && Reaches(p, j)
    ensures i == j && 2 * p.options[i].votes > p.total
  {
    MajorityIsMoreThanHalf(p.total);
    if i != j {
      SupportsAreDisjoint(p.voters, i, j);
    }
  }

  /** Validators with power, and what happens to their proposal, so that its total comes to be this one. */
  function SplitVals(total: int, a: Address, b: Address): seq<Validator>
  {
    if total <= 1 then [Validator(a, 1)] else [Validator(a, total / 2), Validator(b, total / 2)]
  }

  function SplitEvents(total: int, a: Address, b: Address): seq<Event>
  {
    if total == 0 then [Slashing(a, 100)] else if total == 1 then [] else [Voting(a, 0), Voting(b, 1)]
  }

  lemma RunTwo(p: Proposal, e: Event, f: Event)
    requires Chosen(p)
    ensures Run(p, [e]) == Step(p, e) && Run(p, [e, f]) == Step(Step(p, e), f)
  {
    assert [e][..0] == [] && [e, f][..1] == [e];
    assert Run(p, []) == p;
  }

  lemma OneVoter(a: Address, n: int)
    ensures VotersOf([Validator(a, n)]) == map[a := Voter(n, NOT_CHOICE)] && SumSeq(ValidatorPower, [Validator(a, n)]) == n
  {
    var v := Validator(a, n);
    assert [v][..0] == [] && [] + [v] == [v];
    SumSeqAppend(ValidatorPower, [], v);
  }

  lemma TwoVoters(a: Address, b: Address, n: int)
    requires a != b
    ensures VotersOf([Validator(a, n), Validator(b, n)]) == map[a := Voter(n, NOT_CHOICE), b := Voter(n, NOT_CHOICE)]
    ensures SumSeq(ValidatorPower, [Validator(a, n), Validator(b, n)]) == n + n
  {
    var u, v := Validator(a, n), Validator(b, n);
    OneVoter(a, n);
    assert [u, v][..1] == [u] && [u] + [v] == [u, v];
    SumSeqAppend(ValidatorPower, [u], v);
  }

  lemma FirstVote(p: Proposal, a: Address, choice: nat) returns (r: Proposal)
    requires Chosen(p) && a in p.voters && p.voters[a].choice < 0 && choice < |p.options|
    ensures r == Step(p, Voting(a, choice))
         == p.(options := AddVotes(p.options, choice, p.voters[a].power), voters := p.voters[a := p.voters[a].(choice := choice)])
  {
    r := Step(p, Voting(a, choice));
  }

  lemma SlashedOut(p: Proposal, a: Address) returns (r: Proposal)
    requires Chosen(p) && a in p.voters && p.voters[a] == Voter(1, NOT_CHOICE)
    ensures r == Step(p, Slashing(a, 100)) && r.options == p.options && r.total == p.total - 1 && r.majority == MajorityOf(p.total - 1) && r.major == p.major
  {
    assert SlashOf(1, 100) == 1;
    r := Step(p, Slashing(a, 100));
  }

  /** The run leads to two options with the same votes, which reach the majority. */
  ghost predicate SplitsTo(r: Proposal, total: int, n: int, x: Content, y: Content)
  {
    r.total == total && r.majority <= n && r.options == [VoteOption(x, n), VoteOption(y, n)]
  }

  lemma SmallRun(p: Proposal, total: int, a: Address, b: Address, x: Content, y: Content)
    requires (total == 0 || total == 1) && p.voters == map[a := Voter(1, NOT_CHOICE)]
    requires p.options == [VoteOption(x, 0), VoteOption(y, 0)] && p.total == 1 && p.majority == MajorityOf(1)
    ensures Chosen(p) && SplitsTo(Run(p, SplitEvents(total, a, b)), total, 0, x, y)
  {
    if total == 0 {
      var r := SlashedOut(p, a);
      RunTwo(p, Slashing(a, 100), Slashing(a, 100));
    }
  }

  lemma TwoVotes(p: Proposal, n: int, a: Address, b: Address, x: Content, y: Content) returns (r: Proposal)
    requires a != b && p.voters == map[a := Voter(n, NOT_CHOICE), b := Voter(n, NOT_CHOICE)] && p.options == [VoteOption(x, 0), VoteOption(y, 0)]
    ensures Chosen(p) && r == Step(Step(p, Voting(a, 0)), Voting(b, 1))
    ensures r.options == [VoteOption(x, n), VoteOption(y, n)] && r.total == p.total && r.majority == p.majority
  {
    var q := FirstVote(p, a, 0);
    r := FirstVote(q, b, 1);
  }

  lemma EvenRun(p: Proposal, total: int, n: int, a: Address, b: Address, x: Content, y: Content)
    requires a != b && p.voters == map[a := Voter(n, NOT_CHOICE), b := Voter(n, NOT_CHOICE)] && total > 1
    requires p.options == [VoteOption(x, 0), VoteOption(y, 0)] && p.total == total && p.majority <= n
    ensures Chosen(p) && SplitsTo(Run(p, SplitEvents(total, a, b)), total, n, x, y)
  {
    var r := TwoVotes(p, n, a, b, x, y);
    RunTwo(p, Voting(a, 0), Voting(b, 1));
  }

  lemma HalfIsMajority(total: nat)
    requires !Decisive(total) && total > 1
    ensures total == total / 2 + total / 2 && MajorityOf(total) <= total / 2
  {
    MajorityIsTwoThirds(total);
  }

  lemma EqualsSortBothWays(u: VoteOption, v: VoteOption)
    requires u.votes == v.votes
    ensures SortOf(MoreVotes, [u, v], [u, v]) && SortOf(MoreVotes, [u, v], [v, u])
  {
    assert multiset([u, v]) == multiset([v, u]);
  }

  lemma SmallSplits(p: Proposal, total: nat, optType: OptType, start: int, blocks: int, applying: int, a: Address, b: Address, x: Content, y: Content)
    requires total <= 1 && p == NewProposal(optType, start, blocks, applying, [Validator(a, 1)], [x, y])
    ensures Chosen(p) && SplitsTo(Run(p, SplitEvents(total, a, b)), total, 0, x, y)
  {
    OneVoter(a, 1);
    assert p.options == [VoteOption(x, 0), VoteOption(y, 0)];
    SmallRun(p, total, a, b, x, y);
  }

  lemma EvenSplits(p: Proposal, total: nat, n: int, optType: OptType, start: int, blocks: int, applying: int, a: Address, b: Address, x: Content, y: Content)
    requires !Decisive(total) && total > 1 && n == total / 2 && a != b
    requires p == NewProposal(optType, start, blocks, applying, [Validator(a, n), Validator(b, n)], [x, y])
    ensures Chosen(p) && SplitsTo(Run(p, SplitEvents(total, a, b)), total, n, x, y)
  {
    TwoVoters(a, b, n);
    HalfIsMajority(total);
    assert p.options == [VoteOption(x, 0), VoteOption(y, 0)];
    EvenRun(p, total, n, a, b, x, y);
  }

  /**
   For every other total there is a proposal with it, made for validators that all have power, voted on and slashed, whose
   major option the unstable sort decides.
   */
  lemma SortCanDecide(total: nat, optType: OptType, start: int, blocks: int, applying: int, a: Address, b: Address, x: Content, y: Content)
    returns (p: Proposal, r: Proposal, s: seq<VoteOption>, t: seq<VoteOption>)
    requires !Decisive(total) && a != b && x != y
    ensures DistinctVals(SplitVals(total, a, b)) && (forall v | v in SplitVals(total, a, b) :: v.power > 0) && RatiosOk(SplitEvents(total, a, b))
    ensures p == NewProposal(optType, start, blocks, applying, SplitVals(total, a, b), [x, y])
    ensures Chosen(p) && r == Run(p, SplitEvents(total, a, b)) && r.total == total
    ensures SortOf(MoreVotes, r.options, s) && SortOf(MoreVotes, r.options, t) && s != [] && t != []
    ensures WithMajor(r, s).major.Some? && WithMajor(r, t).major.Some? && WithMajor(r, s).major != WithMajor(r, t).major
  {
    var n := if total <= 1 then 0 else total / 2;
    p := NewProposal(optType, start, blocks, applying, SplitVals(total, a, b), [x, y]);
    if total <= 1 {
      SmallSplits(p, total, optType, start, blocks, applying, a, b, x, y);
    } else {
      EvenSplits(p, total, n, optType, start, blocks, applying, a, b, x, y);
    }
    r := Run(p, SplitEvents(total, a, b));
    s, t := [VoteOption(x, n), VoteOption(y, n)], [VoteOption(y, n), VoteOption(x, n)];
    EqualsSortBothWays(VoteOption(x, n), VoteOption(y, n));
    SplitDecides(r, total, n, x, y, s, t);
  }

  lemma SplitDecides(r: Proposal, total: int, n: int, x: Content, y: Content, s: seq<VoteOption>, t: seq<VoteOption>)
    requires SplitsTo(r, total, n, x, y) && x != y && s == [VoteOption(x, n), VoteOption(y, n)] && t == [VoteOption(y, n), VoteOption(x, n)]
    ensures WithMajor(r, s).major == Some(VoteOption(x, n)) && WithMajor(r, t).major == Some(VoteOption(y, n))
  {
  }

  /** With a decisive total the unstable sort cannot change the outcome. */
  lemma SortCannotDecide(p: Proposal, s: seq<VoteOption>, t: seq<VoteOption>)
    requires Tallied(p) && p.total < I63 / 2 && Decisive(p.total) && p.options != [] && p.major.None?
    requires SortOf(MoreVotes, p.options, s) && SortOf(MoreVotes, p.options, t)
    ensures s != [] && t != [] && WithMajor(p, s).major == WithMajor(p, t).major
  {
    MajorExists(p, s);
    MajorExists(p, t);
    if WithMajor(p, s).major.Some? {
      var i :| Reaches(p, i) && p.options[i] == WithMajor(p, s).major.value;
      var j :| Reaches(p, j) && p.options[j] == WithMajor(p, t).major.value;
      MajorityIsUnique(p, i, j);
    }
  }

  // ----- The object -----

  /** ctrlers/gov/proposal/proposal.go: GovProposal, changed in place. */
  class GovProposal {
    const optType: OptType
    const start: int
    const end: int
    const applying: int
    var total: int
    var majority: int
    var voters: map<Address, Voter>
    var options: seq<VoteOption>
    var major: Option<VoteOption>

    ghost function View(): Proposal
      reads this
    {
      Proposal(optType, start, end, applying, total, majority, voters, options, major)
    }

    constructor (optType: OptType, start: int, blocks: int, applying: int, total: int,
                 voters: map<Address, Voter>, contents: seq<Content>)
      ensures View() == Proposal(optType, start, ToInt64(start + blocks), applying, total, MajorityOf(total), voters, OptionsOf(contents), None)
    {
      this.optType, this.start, this.end, this.applying := optType, start, ToInt64(start + blocks), applying;
      this.total, this.majority := total, MajorityOf(total);
      this.voters, this.options, this.major := voters, OptionsOf(contents), None;
    }

    method CancelVote(a: Address)
      requires Chosen(View()) && a in voters
      modifies this`voters, this`options
      ensures View() == Cancel(old(View()), a)
    {
      var voter := voters[a];
      if voter.choice >= 0 {
        options := options[voter.choice := options[voter.choice].(votes := options[voter.choice].votes - voter.power)];
        voters := voters[a := voter.(choice := NOT_CHOICE)];
      }
    }

    method CastVote(a: Address, choice: int)
      requires Chosen(View()) && a in voters && choice < |options|
      modifies this`voters, this`options
      ensures View() == Choose(old(View()), a, choice)
    {
      if choice >= 0 {
        var voter := voters[a];
        options := options[choice := options[choice].(votes := options[choice].votes + voter.power)];
        voters := voters[a := voter.(choice := choice)];
      }
    }

    /** An address that is not a voter is refused; the caller has checked the choice. */
    method DoVote(a: Address, choice: int) returns (ok: bool)
      requires Chosen(View()) && choice < |options|
      modifies this`voters, this`options
      ensures ok == (a in old(voters))
      ensures View() == if ok then Vote(old(View()), a, choice) else old(View())
    {
      if a !in voters {
        return false;
      }
      CancelVote(a);
      CastVote(a, choice);
      ok := true;
    }

    method DoPunish(a: Address, ratio: int) returns (slash: int, ok: bool)
      requires Chosen(View())
      modifies this`voters, this`options, this`total, this`majority
      ensures ok == (a in old(voters)) && slash == (if ok then SlashOf(old(voters)[a].power, ratio) else 0)
      ensures View() == if ok then Punish(old(View()), a, ratio) else old(View())
    {
      if a !in voters {
        return 0, false;
      }
      var voter := voters[a];
      if voter.choice >= 0 {
        CancelVote(a);
      }
      slash := SlashOf(voter.power, ratio);
      var power := voter.power - slash;
      if power <= 0 {
        voters := voters - {a};
      } else {
        voters := voters[a := voters[a].(power := power)];
        if voter.choice >= 0 {
          CastVote(a, voter.choice);
        }
      }
      total := total - slash;
      majority := MajorityOf(total);
      ok := true;
    }

    /** The sort is one of the results that sort.Sort allows. */
    method UpdateMajorOption() returns (r: Option<VoteOption>)
      requires options != []
      modifies this`options, this`major
      ensures r == major && SortOf(MoreVotes, old(options), options)
      ensures options != [] && View() == WithMajor(old(View()), options)
    {
      SortSorts(MoreVotes, options);
      SameElements(options, Sort(MoreVotes, options));
      options := Sort(MoreVotes, options);
      if options[0].votes >= majority {
        major := Some(options[0]);
      }
      r := major;
    }

    method SumVotingPowers() returns (sum: int)
      ensures sum == VotingPower(voters)
    {
      sum := 0;
      var rest := voters;
      while rest != map[]
        invariant VotingPower(voters) == sum + VotingPower(rest)
        decreases |rest|
      {
        var a :| a in rest;
        SumMapExtract(VoterPower, rest, a);
        sum := sum + rest[a].power;
        rest := rest - {a};
      }
    }
  }
}

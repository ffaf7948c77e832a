/**
 types/crypto/sfile_pv.go: the validator's signer. It must never let out two different
 signed messages for one (height, round, step), also when the process crashes between
 signing, saving its state and handing out the message, and then reloads the saved state.

 The canonical encodings are injective, so sign bytes are modelled by what they
 encode; a signature is modelled by the bytes it was made over.
 */
module Signer {
  import opened Prelude

  const STEP_NONE := 0
  const STEP_PROPOSE := 1
  const STEP_PREVOTE := 2
  const STEP_PRECOMMIT := 3

  datatype VoteType = Prevote | Precommit | OtherType

  datatype SignBytes =
    | VoteBytes(vtype: VoteType, height: int, round: int, blockID: Bytes, timestamp: int, chainID: string)
    | ProposalBytes(height: int, round: int, polRound: int, blockID: Bytes, timestamp: int, chainID: string)

  datatype Signature = SignatureOver(bytes: SignBytes)

  datatype Vote = Vote(
    vtype: VoteType, height: int, round: int, blockID: Bytes, timestamp: int,
    validator: Bytes, index: int, signature: Option<Signature>)

  datatype Proposal = Proposal(
    height: int, round: int, polRound: int, blockID: Bytes, timestamp: int, signature: Option<Signature>)

  function VoteSignBytes(chainID: string, v: Vote): SignBytes
  {
    VoteBytes(v.vtype, v.height, v.round, v.blockID, v.timestamp, chainID)
  }

  function ProposalSignBytes(chainID: string, p: Proposal): SignBytes
  {
    ProposalBytes(p.height, p.round, p.polRound, p.blockID, p.timestamp, chainID)
  }

  // ----- Height, round and step -----

  datatype HRS = HRS(height: int, round: int, step: int)

  predicate Before(a: HRS, b: HRS)
  {
    || a.height < b.height
    || (a.height == b.height && (a.round < b.round || (a.round == b.round && a.step < b.step)))
  }

  function StepOf(t: VoteType): int
    requires !t.OtherType?
  {
    if t.Prevote? then STEP_PREVOTE else STEP_PRECOMMIT
  }

  /** The triple a message is signed for. */
  function HRSOf(b: SignBytes): HRS
  {
    match b
    case VoteBytes(t, h, r, _, _, _) => HRS(h, r, if t.OtherType? then STEP_NONE else StepOf(t))
    case ProposalBytes(h, r, _, _, _, _) => HRS(h, r, STEP_PROPOSE)
  }

  datatype LastSignState = LastSignState(hrs: HRS, signature: Option<Signature>, signBytes: Option<SignBytes>)

  /** The state of a new signer and of a reset one. */
  const NEW_STATE := LastSignState(HRS(0, 0, STEP_NONE), None, None)

  datatype Check = CanSign | SameHRS | Regression | NoSignBytes | SignatureMissing

  function CheckHRS(lss: LastSignState, height: int, round: int, step: int): Check
  {
    if lss.hrs.height > height then Regression
    else if lss.hrs.height == height then
      if lss.hrs.round > round then Regression
      else if lss.hrs.round == round then
        if lss.hrs.step > step then Regression
        else if lss.hrs.step == step then
          if lss.signBytes.Some? then
            if lss.signature.None? then SignatureMissing else SameHRS
          else NoSignBytes
        else CanSign
      else CanSign
    else CanSign
  }

  // ----- Signing -----

  datatype Panic = UnknownVoteType | NilSignature | CannotUnmarshal

  datatype Outcome<M> =
    | Refused
    | Panicked(panic: Panic)
    | Reused(message: M)
    | Signed(message: M, state: LastSignState)

  function AtTime(b: SignBytes, now: int): SignBytes
  {
    match b
    case VoteBytes(t, h, r, id, _, chain) => VoteBytes(t, h, r, id, now, chain)
    case ProposalBytes(h, r, pol, id, _, chain) => ProposalBytes(h, r, pol, id, now, chain)
  }

  /** Both are given the same time before they are compared. */
  predicate OnlyDifferByTimestamp(a: SignBytes, b: SignBytes)
  {
    AtTime(a, 0) == AtTime(b, 0)
  }

  function SignVoteOutcome(lss: LastSignState, chainID: string, v: Vote, keyWorks: bool): Outcome<Vote>
  {
    if v.vtype.OtherType? then Panicked(UnknownVoteType)
    else
      var bytes := VoteSignBytes(chainID, v);
      match CheckHRS(lss, v.height, v.round, StepOf(v.vtype))
      case Regression => Refused
      case NoSignBytes => Refused
      case SignatureMissing => Panicked(NilSignature)
      case SameHRS =>
        var last := lss.signBytes.value;
        if bytes == last then Reused(v.(signature := lss.signature))
        else if !last.VoteBytes? then Panicked(CannotUnmarshal)
        else if OnlyDifferByTimestamp(last, bytes) then
          Reused(v.(timestamp := last.timestamp, signature := lss.signature))
        else Refused
      case CanSign =>
        if !keyWorks then Refused
        else
          var sig := Some(SignatureOver(bytes));
          Signed(v.(signature := sig), LastSignState(HRS(v.height, v.round, StepOf(v.vtype)), sig, Some(bytes)))
  }

  function SignProposalOutcome(lss: LastSignState, chainID: string, p: Proposal, keyWorks: bool): Outcome<Proposal>
  {
    var bytes := ProposalSignBytes(chainID, p);
    match CheckHRS(lss, p.height, p.round, STEP_PROPOSE)
    case Regression => Refused
    case NoSignBytes => Refused
    case SignatureMissing => Panicked(NilSignature)
    case SameHRS =>
      var last := lss.signBytes.value;
      if bytes == last then Reused(p.(signature := lss.signature))
      else if !last.ProposalBytes? then Panicked(CannotUnmarshal)
      else if OnlyDifferByTimestamp(last, bytes) then
        Reused(p.(timestamp := last.timestamp, signature := lss.signature))
      else Refused
    case CanSign =>
      if !keyWorks then Refused
      else
        var sig := Some(SignatureOver(bytes));
        Signed(p.(signature := sig), LastSignState(HRS(p.height, p.round, STEP_PROPOSE), sig, Some(bytes)))
  }

  /** What every saved state satisfies. */
  ghost predicate StateInv(lss: LastSignState)
  {
    || lss == NEW_STATE
    || (&& lss.signBytes.Some? && lss.signature == Some(SignatureOver(lss.signBytes.value))
        && HRSOf(lss.signBytes.value) == lss.hrs && lss.hrs.step > STEP_NONE)
  }

  /** On such states CheckHRS decides exactly by the order of the triples. */
  lemma CheckDecidesByOrder(lss: LastSignState, h: int, r: int, step: int)
    requires StateInv(lss) && step > STEP_NONE
    ensures var c := CheckHRS(lss, h, r, step);
            && (c == CanSign <==> Before(lss.hrs, HRS(h, r, step)))
            && (c == SameHRS <==> lss.hrs == HRS(h, r, step))
            && (c == Regression <==> Before(HRS(h, r, step), lss.hrs))
            && c != NoSignBytes && c != SignatureMissing
  {
  }

  // ----- The signer with its file, as an object -----

  class SFilePV {
    var lastSignState: LastSignState
    /** The content of the state file; saving replaces it atomically. */
    var stateFile: LastSignState

    constructor New()
      ensures lastSignState == stateFile == NEW_STATE
    {
      lastSignState, stateFile := NEW_STATE, NEW_STATE;
    }

    constructor Load(file: LastSignState)
      ensures lastSignState == stateFile == file
    {
      lastSignState, stateFile := file, file;
    }

    method Reset()
      modifies this
      ensures lastSignState == stateFile == NEW_STATE
    {
      lastSignState := LastSignState(HRS(0, 0, 0), None, None);
      stateFile := lastSignState;
    }

    method SaveSigned(height: int, round: int, step: int, signBytes: SignBytes, sig: Signature)
      modifies this
      ensures lastSignState == stateFile == LastSignState(HRS(height, round, step), Some(sig), Some(signBytes))
    {
      lastSignState := lastSignState.(hrs := HRS(height, round, step));
      lastSignState := lastSignState.(signature := Some(sig));
      lastSignState := lastSignState.(signBytes := Some(signBytes));
      stateFile := lastSignState;
    }

    method SignVote(chainID: string, vote: Vote, keyWorks: bool) returns (o: Outcome<Vote>)
      modifies this
      ensures o == SignVoteOutcome(old(lastSignState), chainID, vote, keyWorks)
      ensures o.Signed? ==> lastSignState == stateFile == o.state
      ensures !o.Signed? ==> unchanged(this)
    {
      if vote.vtype.OtherType? { return Panicked(UnknownVoteType); }
      var step := StepOf(vote.vtype);
      var c := CheckHRS(lastSignState, vote.height, vote.round, step);
      if c == SignatureMissing { return Panicked(NilSignature); }
      if c == Regression || c == NoSignBytes { return Refused; }
      var signBytes := VoteSignBytes(chainID, vote);
      if c == SameHRS {
        var last := lastSignState.signBytes.value;
        if signBytes == last { return Reused(vote.(signature := lastSignState.signature)); }
        if !last.VoteBytes? { return Panicked(CannotUnmarshal); }
        if OnlyDifferByTimestamp(last, signBytes) {
          return Reused(vote.(timestamp := last.timestamp, signature := lastSignState.signature));
        }
        return Refused;
      }
      if !keyWorks { return Refused; }
      var sig := SignatureOver(signBytes);
      SaveSigned(vote.height, vote.round, step, signBytes, sig);
      return Signed(vote.(signature := Some(sig)), lastSignState);
    }

    method SignProposal(chainID: string, proposal: Proposal, keyWorks: bool) returns (o: Outcome<Proposal>)
      modifies this
      ensures o == SignProposalOutcome(old(lastSignState), chainID, proposal, keyWorks)
      ensures o.Signed? ==> lastSignState == stateFile == o.state
      ensures !o.Signed? ==> unchanged(this)
    {
      var c := CheckHRS(lastSignState, proposal.height, proposal.round, STEP_PROPOSE);
      if c == SignatureMissing { return Panicked(NilSignature); }
      if c == Regression || c == NoSignBytes { return Refused; }
      var signBytes := ProposalSignBytes(chainID, proposal);
      if c == SameHRS {
        var last := lastSignState.signBytes.value;
        if signBytes == last { return Reused(proposal.(signature := lastSignState.signature)); }
        if !last.ProposalBytes? { return Panicked(CannotUnmarshal); }
        if OnlyDifferByTimestamp(last, signBytes) {
          return Reused(proposal.(timestamp := last.timestamp, signature := lastSignState.signature));
        }
        return Refused;
      }
      if !keyWorks { return Refused; }
      var sig := SignatureOver(signBytes);
      SaveSigned(proposal.height, proposal.round, STEP_PROPOSE, signBytes, sig);
      return Signed(proposal.(signature := Some(sig)), lastSignState);
    }
  }

  // ----- Runs with crashes -----

  /** Where a request is cut short: before its state is saved, or after that but before the message is out. */
  datatype Crash = NoCrash | BeforeSave | BeforeRelease

  datatype Event =
    | VoteRequest(chainID: string, vote: Vote, keyWorks: bool, crash: Crash)
    | ProposalRequest(chainID: string, proposal: Proposal, keyWorks: bool, crash: Crash)
    | Restart

  /** A message that left the signer: the sign bytes of the message as returned, and its signature. */
  datatype Release = Release(bytes: SignBytes, signature: Option<Signature>, isNew: bool)

  datatype Node = Node(memory: LastSignState, file: LastSignState, released: seq<Release>)

  function Reload(n: Node): Node
  {
    n.(memory := n.file)
  }

  function Answer<M>(n: Node, o: Outcome<M>, release: M -> Release, crash: Crash): Node
  {
    match o
    case Refused => n
    case Panicked(_) => Reload(n)
    case Reused(m) => if crash.NoCrash? then n.(released := n.released + [release(m).(isNew := false)]) else Reload(n)
    case Signed(m, state) =>
      match crash
      case BeforeSave => Reload(n)
      case BeforeRelease => Reload(n.(file := state))
      case NoCrash => Node(state, state, n.released + [release(m).(isNew := true)])
  }

  function Step(n: Node, e: Event): Node
  {
    match e
    case VoteRequest(chainID, v, keyWorks, crash) =>
      Answer(n, SignVoteOutcome(n.memory, chainID, v, keyWorks),
             (m: Vote) => Release(VoteSignBytes(chainID, m), m.signature, true), crash)
    case ProposalRequest(chainID, p, keyWorks, crash) =>
      Answer(n, SignProposalOutcome(n.memory, chainID, p, keyWorks),
             (m: Proposal) => Release(ProposalSignBytes(chainID, m), m.signature, true), crash)
    case Restart => Reload(n)
  }

  function Run(n: Node, es: seq<Event>): Node
  {
    if es == [] then n else Step(Run(n, es[..|es| - 1]), es[|es| - 1])
  }

  ghost predicate Safe(released: seq<Release>)
  {
    && (forall i, j | 0 <= i < j < |released| && released[i].isNew && released[j].isNew ::
          Before(HRSOf(released[i].bytes), HRSOf(released[j].bytes)))
    && (forall i, j | 0 <= i < j < |released| && HRSOf(released[i].bytes) == HRSOf(released[j].bytes) ::
          released[i].bytes == released[j].bytes)
    && (forall i | 0 <= i < |released| :: released[i].signature == Some(SignatureOver(released[i].bytes)))
  }

  /** Released messages are not past the saved triple, and at it they are the saved one. */
  ghost predicate NodeInv(n: Node)
  {
    && n.memory == n.file && StateInv(n.file)
    && Safe(n.released)
    && (forall r | r in n.released ::
          var t := HRSOf(r.bytes);
          Before(t, n.file.hrs) || (t == n.file.hrs && n.file.signBytes == Some(r.bytes)))
  }

  /** A signed message advances the triple; a reused one repeats the saved bytes. */
  lemma VoteOutcome(lss: LastSignState, chainID: string, v: Vote, keyWorks: bool)
    requires StateInv(lss)
    ensures match SignVoteOutcome(lss, chainID, v, keyWorks)
            case Refused => true
            case Panicked(p) => p == UnknownVoteType && v.vtype.OtherType?
            case Reused(m) => lss.signBytes == Some(VoteSignBytes(chainID, m)) && m.signature == lss.signature
            case Signed(m, s) =>
              && StateInv(s) && Before(lss.hrs, s.hrs) && s.signBytes == Some(VoteSignBytes(chainID, m))
              && m.signature == s.signature && m.(signature := v.signature) == v
  {
    if !v.vtype.OtherType? { CheckDecidesByOrder(lss, v.height, v.round, StepOf(v.vtype)); }
  }

  lemma ProposalOutcome(lss: LastSignState, chainID: string, p: Proposal, keyWorks: bool)
    requires StateInv(lss)
    ensures match SignProposalOutcome(lss, chainID, p, keyWorks)
            case Refused => true
            case Panicked(_) => false
            case Reused(m) => lss.signBytes == Some(ProposalSignBytes(chainID, m)) && m.signature == lss.signature
            case Signed(m, s) =>
              && StateInv(s) && Before(lss.hrs, s.hrs) && s.signBytes == Some(ProposalSignBytes(chainID, m))
              && m.signature == s.signature && m.(signature := p.signature) == p
  {
    CheckDecidesByOrder(lss, p.height, p.round, STEP_PROPOSE);
  }

  /**
   Exactly which votes are signed and which are answered with the saved signature: those past the last triple,
   and those at it that are the saved vote up to the timestamp. All others are refused.
   */
  lemma VotesAnswered(lss: LastSignState, chainID: string, v: Vote, keyWorks: bool)
    requires StateInv(lss) && !v.vtype.OtherType?
    ensures var o, hrs := SignVoteOutcome(lss, chainID, v, keyWorks), HRS(v.height, v.round, StepOf(v.vtype));
            && (o.Signed? <==> Before(lss.hrs, hrs) && keyWorks)
            && (o.Reused? <==> lss.hrs == hrs && lss.signBytes.value == AtTime(VoteSignBytes(chainID, v), lss.signBytes.value.timestamp))
            && (o.Signed? || o.Reused? || o.Refused?)
  {
    CheckDecidesByOrder(lss, v.height, v.round, StepOf(v.vtype));
  }

  lemma ProposalsAnswered(lss: LastSignState, chainID: string, p: Proposal, keyWorks: bool)
    requires StateInv(lss)
    ensures var o, hrs := SignProposalOutcome(lss, chainID, p, keyWorks), HRS(p.height, p.round, STEP_PROPOSE);
            && (o.Signed? <==> Before(lss.hrs, hrs) && keyWorks)
            && (o.Reused? <==> lss.hrs == hrs && lss.signBytes.value == AtTime(ProposalSignBytes(chainID, p), lss.signBytes.value.timestamp))
            && (o.Signed? || o.Reused? || o.Refused?)
  {
    CheckDecidesByOrder(lss, p.height, p.round, STEP_PROPOSE);
  }

  lemma ReleaseKeepsInv(n: Node, state: LastSignState, r: Release)
    requires NodeInv(n) && StateInv(state)
    requires state.signBytes == Some(r.bytes) && r.signature == state.signature
    requires if r.isNew then Before(n.file.hrs, state.hrs) else state == n.file
    ensures NodeInv(Node(state, state, n.released + [r]))
  {
    var all := n.released + [r];
    forall i | 0 <= i < |n.released|
      ensures all[i] == n.released[i] && n.released[i] in n.released
    {
    }
  }

  lemma StepKeepsInv(n: Node, e: Event)
    requires NodeInv(n)
    ensures NodeInv(Step(n, e))
  {
    match e
    case VoteRequest(chainID, v, keyWorks, crash) =>
      VoteOutcome(n.memory, chainID, v, keyWorks);
      var o := SignVoteOutcome(n.memory, chainID, v, keyWorks);
      if o.Reused? && crash.NoCrash? {
        ReleaseKeepsInv(n, n.file, Release(VoteSignBytes(chainID, o.message), o.message.signature, false));
      } else if o.Signed? && crash.NoCrash? {
        ReleaseKeepsInv(n, o.state, Release(VoteSignBytes(chainID, o.message), o.message.signature, true));
      }
    case ProposalRequest(chainID, p, keyWorks, crash) =>
      ProposalOutcome(n.memory, chainID, p, keyWorks);
      var o := SignProposalOutcome(n.memory, chainID, p, keyWorks);
      if o.Reused? && crash.NoCrash? {
        ReleaseKeepsInv(n, n.file, Release(ProposalSignBytes(chainID, o.message), o.message.signature, false));
      } else if o.Signed? && crash.NoCrash? {
        ReleaseKeepsInv(n, o.state, Release(ProposalSignBytes(chainID, o.message), o.message.signature, true));
      }
    case Restart =>
  }

  lemma {:induction false} RunKeepsInv(es: seq<Event>)
    ensures NodeInv(Run(Node(NEW_STATE, NEW_STATE, []), es))
  {
    if es != [] {
      RunKeepsInv(es[..|es| - 1]);
      StepKeepsInv(Run(Node(NEW_STATE, NEW_STATE, []), es[..|es| - 1]), es[|es| - 1]);
    }
  }

  /**
   Safety of every run from a new or reset state: newly signed messages leave with strictly increasing
   triples, one triple never leaves with two different messages, and every message carries a signature
   over exactly what it says, also after its timestamp was rewritten.
   */
  lemma NeverDoubleSigns(es: seq<Event>)
    ensures Safe(Run(Node(NEW_STATE, NEW_STATE, []), es).released)
  {
    RunKeepsInv(es);
  }

  /** The messages of one round in the order in which they may be signed. */
  predicate MayFollow(a: SignBytes, b: SignBytes)
  {
    match a
    case ProposalBytes(_, _, _, _, _, _) => b.VoteBytes? && !b.vtype.OtherType?
    case VoteBytes(t, _, _, _, _, _) => b.VoteBytes? && t == Prevote && b.vtype == Precommit
  }

  /**
   What no run releases: two different proposals, prevotes or precommits of one round; and what is newly signed comes in
   the order of heights, then rounds, and within a round as proposal, prevote, precommit.
   */
  lemma NeverEquivocates(es: seq<Event>, i: nat, j: nat) returns (rs: seq<Release>)
    requires i < j < |Run(Node(NEW_STATE, NEW_STATE, []), es).released|
    ensures rs == Run(Node(NEW_STATE, NEW_STATE, []), es).released
    ensures var a, b := rs[i].bytes, rs[j].bytes;
            && (a.height == b.height && a.round == b.round && a.ProposalBytes? && b.ProposalBytes? ==> a == b)
            && (a.height == b.height && a.round == b.round && a.VoteBytes? && b.VoteBytes? && a.vtype == b.vtype ==> a == b)
            && (rs[i].isNew && rs[j].isNew ==>
                  && a.height <= b.height && (a.height == b.height ==> a.round <= b.round)
                  && (a.height == b.height && a.round == b.round && !(a.VoteBytes? && a.vtype.OtherType?) ==> MayFollow(a, b)))
  {
    rs := Run(Node(NEW_STATE, NEW_STATE, []), es).released;
    NeverDoubleSigns(es);
  }

  /** In every run the only panic is the one for a vote that is neither prevote nor precommit. */
  lemma OnlyUnknownVoteTypePanics(es: seq<Event>, chainID: string, v: Vote, p: Proposal, keyWorks: bool)
    ensures var lss := Run(Node(NEW_STATE, NEW_STATE, []), es).memory;
            && (SignVoteOutcome(lss, chainID, v, keyWorks).Panicked? <==> v.vtype.OtherType?)
            && !SignProposalOutcome(lss, chainID, p, keyWorks).Panicked?
  {
    RunKeepsInv(es);
    var lss := Run(Node(NEW_STATE, NEW_STATE, []), es).memory;
    VoteOutcome(lss, chainID, v, keyWorks);
    ProposalOutcome(lss, chainID, p, keyWorks);
  }

  /** In every run a vote past the saved triple is signed, and the saved vote is handed out again at any later time. */
  lemma SignsAgain(es: seq<Event>, chainID: string, v: Vote, later: int)
    requires !v.vtype.OtherType?
    ensures var lss := Run(Node(NEW_STATE, NEW_STATE, []), es).memory;
            Before(lss.hrs, HRS(v.height, v.round, StepOf(v.vtype))) ==>
              var o := SignVoteOutcome(lss, chainID, v, true);
              && o.Signed?
              && SignVoteOutcome(o.state, chainID, v.(timestamp := later), true) == Reused(o.message)
  {
    RunKeepsInv(es);
    CheckDecidesByOrder(Run(Node(NEW_STATE, NEW_STATE, []), es).memory, v.height, v.round, StepOf(v.vtype));
  }
}

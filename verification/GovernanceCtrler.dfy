/** ctrlers/gov/ctrler.go: GovCtrler, whose ledgers and parameters are changed in place. */
module GovernanceCtrlers {
  import opened Prelude
  import opened Overlays
  import opened Delegatees
  import opened GovernanceParams
  import opened Proposals
  import opened Governance
  import opened GovernanceRuns

  lemma FreezeSnoc(g: Gov, ks: seq<Hash>, i: nat, h: int)
    requires i < |ks|
    ensures Freeze(g, ks[..i + 1], h) == var r := Freeze(g, ks[..i], h); if r.None? then None else FreezeOne(r.value, ks[i], h)
  {
    assert ks[..i + 1][..i] == ks[..i];
  }

  lemma ApplySnoc(g: Gov, ks: seq<Hash>, i: nat, h: int)
    requires i < |ks|
    ensures ApplyAll(g, ks[..i + 1], h) == var r := ApplyAll(g, ks[..i], h); if r.None? then None else ApplyOne(r.value, ks[i], h)
  {
    assert ks[..i + 1][..i] == ks[..i];
  }

  lemma {:induction false} FreezeFails(g: Gov, ks: seq<Hash>, i: nat, h: int)
    requires i <= |ks| && Freeze(g, ks[..i], h).None?
    ensures Freeze(g, ks, h).None?
    decreases |ks| - i
  {
    if i < |ks| {
      FreezeSnoc(g, ks, i, h);
      FreezeFails(g, ks, i + 1, h);
    } else {
      assert ks[..i] == ks;
    }
  }

  lemma {:induction false} ApplyFails(g: Gov, ks: seq<Hash>, i: nat, h: int)
    requires i <= |ks| && ApplyAll(g, ks[..i], h).None?
    ensures ApplyAll(g, ks, h).None?
    decreases |ks| - i
  {
    if i < |ks| {
      ApplySnoc(g, ks, i, h);
      ApplyFails(g, ks, i + 1, h);
    } else {
      assert ks[..i] == ks;
    }
  }

  /** The punishment in one proposal, read through the ledger and stored again. */
  function PunishKey(o: Overlay<Hash, Proposal>, k: Hash, a: Address, ratio: int): (r: Overlay<Hash, Proposal>)
    requires AllChosen(o.working)
    ensures AllChosen(r.working) && r == o.(working := r.working) && r.working.Keys == o.working.Keys
  {
    if k !in o.committed || a !in o.committed[k].voters || k !in o.working then o
    else o.Set(k, PunishedProposal(o.committed, o.working, k, a, ratio))
  }

  function PunishKeys(o: Overlay<Hash, Proposal>, ks: seq<Hash>, a: Address, ratio: int): (r: Overlay<Hash, Proposal>)
    requires AllChosen(o.working)
    ensures AllChosen(r.working) && r == o.(working := r.working) && r.working.Keys == o.working.Keys
  {
    if ks == [] then o else PunishKey(PunishKeys(o, ks[..|ks| - 1], a, ratio), ks[|ks| - 1], a, ratio)
  }

  lemma {:induction false} PunishKeysAt(o: Overlay<Hash, Proposal>, ks: seq<Hash>, a: Address, ratio: int, k: Hash)
    requires AllChosen(o.working) && Distinct(ks) && k in o.working
    ensures PunishKeys(o, ks, a, ratio).working[k]
         == if k in ks then PunishedProposal(o.committed, o.working, k, a, ratio) else o.working[k]
  {
    if ks != [] {
      var front, last := ks[..|ks| - 1], ks[|ks| - 1];
      PunishKeysAt(o, front, a, ratio, k);
      assert last !in front;
      assert ks == front + [last];
    }
  }

  /** Punishing the proposals one after the other, in any order, punishes all of them. */
  lemma PunishKeysIsPunishIn(o: Overlay<Hash, Proposal>, ks: seq<Hash>, a: Address, ratio: int)
    requires AllChosen(o.working) && Distinct(ks) && forall k | k in o.committed :: k in ks
    ensures PunishKeys(o, ks, a, ratio) == PunishIn(o, a, ratio)
  {
    forall k | k in o.working ensures PunishKeys(o, ks, a, ratio).working[k] == PunishIn(o, a, ratio).working[k] {
      PunishKeysAt(o, ks, a, ratio, k);
    }
    assert PunishKeys(o, ks, a, ratio).working == PunishIn(o, a, ratio).working;
  }

  lemma VotersSnoc(vals: seq<Validator>, i: nat)
    requires i < |vals|
    ensures VotersOf(vals[..i + 1]) == VotersOf(vals[..i])[vals[i].addr := Voter(vals[i].power, NOT_CHOICE)]
    ensures SumSeq(ValidatorPower, vals[..i + 1]) == SumSeq(ValidatorPower, vals[..i]) + vals[i].power
  {
    assert vals[..i + 1][..i] == vals[..i];
    assert vals[..i + 1] == vals[..i] + [vals[i]];
    SumSeqAppend(ValidatorPower, vals[..i], vals[i]);
  }

  class GovCtrler {
    var height: int
    var params: GovParams
    var newParams: Option<GovParams>
    var stored: Overlay<bool, GovParams>
    var proposals: Overlay<Hash, Proposal>
    var frozen: Overlay<Hash, Proposal>
    /** The hashes of all proposals so far; the program has no such field. */
    ghost var used: set<Hash>

    ghost function View(): Gov
      reads this
    {
      Gov(height, params, newParams, stored, proposals, frozen, used)
    }

    /** The keys of a tree in iteration order. */
    static method TreeKeys(m: map<Hash, Proposal>) returns (ks: seq<Hash>)
      ensures ks == KeysInOrder(m.Keys)
    {
      ks := [];
      var todo := m.Keys;
      while todo != {}
        invariant Distinct(ks) && todo <= m.Keys && forall k :: k in ks <==> k in m.Keys - todo
        decreases todo
      {
        var k :| k in todo;
        assert k !in ks;
        ks := ks + [k];
        todo := todo - {k};
      }
      OrderIsUnique(ks, m.Keys);
      ks := Sort(Less, ks);
    }

    method PunishIfVoter(k: Hash, a: Address)
      requires AllChosen(proposals.working) && proposals.committed.Keys <= proposals.working.Keys && proposals.dead == {}
      modifies this`proposals
      ensures proposals == PunishKey(old(proposals), k, a, params.slashRatio)
    {
      if k in proposals.committed && a in proposals.committed[k].voters {
        var prop := proposals.Get(k).value;
        if a in prop.voters {
          prop := Punish(prop, a, params.slashRatio);
        }
        proposals := proposals.Set(k, prop);
      }
    }

    /** doPunish in BeginBlock. */
    method DoPunish(a: Address)
      requires AllChosen(proposals.working) && proposals.committed.Keys <= proposals.working.Keys && proposals.dead == {}
      modifies this`proposals
      ensures proposals == PunishIn(old(proposals), a, params.slashRatio)
    {
      var keys := TreeKeys(proposals.committed);
      ghost var o := proposals;
      var i := 0;
      while i < |keys|
        invariant 0 <= i <= |keys|
        invariant proposals == PunishKeys(o, keys[..i], a, params.slashRatio)
      {
        assert keys[..i + 1][..i] == keys[..i];
        PunishIfVoter(keys[i], a);
        i := i + 1;
      }
      assert keys[..i] == keys;
      KeysAreListed(o.committed.Keys);
      PunishKeysIsPunishIn(o, keys, a, params.slashRatio);
    }

    /** execProposing, for a validated transaction. */
    method ExecProposing(tx: GovTx, vals: seq<Validator>)
      requires tx.Propose?
      modifies this`proposals, this`used
      ensures used == old(used) + {tx.hash}
      ensures proposals == old(proposals).Set(tx.hash, NewProposal(tx.optType, tx.start, tx.blocks, tx.applying, vals, tx.contents))
    {
      var voters, total := VotersFrom(vals);
      var prop := Proposal(tx.optType, tx.start, ToInt64(tx.start + tx.blocks), tx.applying, total, MajorityOf(total),
                           voters, OptionsOf(tx.contents), None);
      proposals := proposals.Set(tx.hash, prop);
      used := used + {tx.hash};
    }

    static method VotersFrom(vals: seq<Validator>) returns (voters: map<Address, Voter>, total: int)
      ensures voters == VotersOf(vals) && total == SumSeq(ValidatorPower, vals)
    {
      voters, total := map[], 0;
      var i := 0;
      while i < |vals|
        invariant 0 <= i <= |vals|
        invariant voters == VotersOf(vals[..i]) && total == SumSeq(ValidatorPower, vals[..i])
      {
        var v := vals[i];
        VotersSnoc(vals, i);
        total := total + v.power;
        voters := voters[v.addr := Voter(v.power, NOT_CHOICE)];
        i := i + 1;
      }
      assert vals[..i] == vals;
    }

    /** execVoting, for a validated transaction. */
    method ExecVoting(tx: GovTx) returns (ok: bool)
      requires tx.Ballot? && AllChosen(proposals.working)
      requires proposals.Get(tx.target).Some? ==> tx.choice < |proposals.Get(tx.target).value.options|
      modifies this`proposals
      ensures ok <==> old(proposals).Get(tx.target).Some? && tx.voter in old(proposals).Get(tx.target).value.voters
      ensures proposals ==
              if ok then old(proposals).Set(tx.target, Vote(old(proposals).Get(tx.target).value, tx.voter, tx.choice))
              else old(proposals)
    {
      var found := proposals.Get(tx.target);
      if found.None? || tx.voter !in found.value.voters {
        return false;
      }
      proposals := proposals.Set(tx.target, Vote(found.value, tx.voter, tx.choice));
      ok := true;
    }

    method FreezeProposals(h: int) returns (ok: bool)
      modifies this`proposals, this`frozen
      ensures var r := Freeze(old(View()), KeysInOrder(old(proposals.committed.Keys)), h);
              ok == r.Some? && (ok ==> View() == r.value)
    {
      ghost var g := View();
      var keys := TreeKeys(proposals.committed);
      var i := 0;
      while i < |keys|
        invariant 0 <= i <= |keys|
        invariant proposals.committed == old(proposals.committed)
        invariant Freeze(g, keys[..i], h) == Some(View())
      {
        var k := keys[i];
        FreezeSnoc(g, keys, i, h);
        if k in proposals.committed && proposals.committed[k].end < h {
          var prop := proposals.committed[k];
          if proposals.Get(k).None? {
            FreezeFails(g, keys, i + 1, h);
            return false;
          }
          proposals := proposals.Del(k);
          prop := Outcome(prop);
          if prop.major.Some? {
            frozen := frozen.Set(k, prop);
          }
        }
        i := i + 1;
      }
      assert keys[..i] == keys;
      ok := true;
    }

    method ApplyProposals(h: int) returns (ok: bool)
      modifies this`frozen, this`stored, this`newParams
      ensures var r := ApplyAll(old(View()), KeysInOrder(old(frozen.committed.Keys)), h);
              ok == r.Some? && (ok ==> View() == r.value)
    {
      ghost var g := View();
      var keys := TreeKeys(frozen.committed);
      var i := 0;
      while i < |keys|
        invariant 0 <= i <= |keys|
        invariant frozen.committed == old(frozen.committed)
        invariant ApplyAll(g, keys[..i], h) == Some(View())
      {
        var k := keys[i];
        ApplySnoc(g, keys, i, h);
        if k in frozen.committed && frozen.committed[k].applying <= h {
          var prop := frozen.committed[k];
          if frozen.Get(k).None? {
            ApplyFails(g, keys, i + 1, h);
            return false;
          }
          frozen := frozen.Del(k);
          if prop.major.Some? && prop.optType == ParamsType {
            if !prop.major.value.content.Params? {
              ApplyFails(g, keys, i + 1, h);
              return false;
            }
            var merged := Merge(params, prop.major.value.content.params);
            stored := stored.Set(PARAMS_KEY, merged);
            newParams := Some(merged);
          }
        }
        i := i + 1;
      }
      assert keys[..i] == keys;
      ok := true;
    }

    /** The commit of the three ledgers, and with it the switch of the parameters. */
    method Commit()
      modifies this`height, this`params, this`newParams, this`stored, this`proposals, this`frozen
      ensures View() == CommitGov(old(View()))
    {
      stored := stored.Commit();
      proposals := proposals.Commit();
      frozen := frozen.Commit();
      height := height + 1;
      if newParams.Some? {
        params := newParams.value;
        newParams := None;
      }
    }

    /** EndBlock and, unless it reports an error, Commit. */
    method EndAndCommit() returns (ok: bool)
      modifies this`height, this`params, this`newParams, this`stored, this`proposals, this`frozen
      ensures ok == Close(old(View())).Some? && (ok ==> View() == Close(old(View())).value)
    {
      ok := FreezeProposals(height + 1);
      if ok {
        ok := ApplyProposals(height + 1);
        if ok {
          Commit();
        }
      }
    }
  }
}

/** Whom honest replicas halt, over every run of the protocol. */
module MinimmitFaults {
  import opened Bytes
  import opened Hashing
  import opened Quorum
  import opened Minimmit

  predicate ProposedIn(net: Net, a: Action, view: nat, block: Hash) {
    a.Propose? && a.view == view && BlockHash(net.sha, a.proposal.header) == block
  }

  /** An honest leader is asked for one proposal when it enters its view, so all proposals shown for a view
      that an honest member leads are for one block. */
  ghost predicate OneProposal(net: Net, actions: seq<Action>) {
    forall x, y, view, b, c
      | && x in actions && ProposedIn(net, x, view, b) && y in actions && ProposedIn(net, y, view, c)
        && net.Honest(Leader(net.committee, view))
      :: b == c
  }

  /** The proposals a replica has seen are proposals of the run. */
  ghost predicate SeenIn(net: Net, actions: seq<Action>, r: Replica) {
    forall v | v in r.seen :: exists a | a in actions :: ProposedIn(net, a, v, r.seen[v])
  }

  ghost predicate Spared(net: Net, r: Replica) { forall k | k in r.halted :: !net.Honest(k) }

  /** Two notarizes of one view by one voter: the voter is Byzantine. */
  lemma {:induction false} EquivocatorByzantine(net: Net, w: World, r: Replica, view: nat, block: Hash, k: nat)
    requires VoteOnce(w) && TalliesSent(net, w, r)
    requires Sent(net, w, Notarize(view, block, k)) && Equivocates(r, view, block, k)
    ensures !net.Honest(k)
  {
    var c :| c in TallyAt(r.notarizes, view) && c != block && k in TallyAt(r.notarizes, view)[c];
    assert NotarizesSent(net, w, view, r.notarizes[view]);
    assert Sent(net, w, Notarize(view, c, k));
    assert SameSlot(Notarize(view, c, k), Notarize(view, block, k));
  }

  /** A second, different proposal for a view: its leader is Byzantine. */
  lemma {:induction false} ForkerByzantine(net: Net, actions: seq<Action>, r: Replica, a: Action)
    requires OneProposal(net, actions) && SeenIn(net, actions, r)
    requires a in actions && a.Propose? && a.view in r.seen && r.seen[a.view] != BlockHash(net.sha, a.proposal.header)
    ensures !net.Honest(Leader(net.committee, a.view))
  {
    var x :| x in actions && ProposedIn(net, x, a.view, r.seen[a.view]);
    assert ProposedIn(net, a, a.view, BlockHash(net.sha, a.proposal.header));
  }

  lemma {:induction false} VerdictKeeps(net: Net, r: Replica, view: nat, block: Hash, valid: bool)
    ensures var r' := Judged(net.sha, net.genesis, r, view, block, valid); r'.halted == r.halted && r'.seen == r.seen
  {
    if Confirms(net.sha, r, view, block, valid) { FinalizeFrame(Kept(r, view, block), view, block); }
  }

  lemma {:induction false} TakenKeeps(r: Replica, view: nat, block: Hash, large: bool)
    ensures var r' := Taken(r, view, block, large); r'.halted == r.halted && r'.seen == r.seen
  {
    StoreFrame(r, view, Notarized(block, large));
    FinalizeFrame(Store(r, view, Notarized(block, large)), view, block);
  }

  /** Verdicts and proofs leave the halted voters and the seen proposals alone. */
  lemma {:induction false} OthersKeep(net: Net, r: Replica, a: Action)
    requires !a.Admit? && !a.Propose? && !a.Expel?
    ensures Acted(net, r, a).halted == r.halted && Acted(net, r, a).seen == r.seen
  {
    match a
    case Verdict(_, view, block, valid) => VerdictKeeps(net, r, view, block, valid);
    case TakeNotarization(_, view, block, signers) =>
      TakenKeeps(r, view, block, Weight(net.Members(), signers) >= net.committee.L());
    case TakeNullification(_, view, _) => StoreFrame(r, view, Nullified);
    case _ =>
  }

  lemma {:induction false} ActedSpared(net: Net, actions: seq<Action>, w: World, a: Action)
    requires Inv(net, w) && Enabled(net, w, a) && a in actions && OneProposal(net, actions)
    requires Spared(net, w.replicas[a.i]) && SeenIn(net, actions, w.replicas[a.i])
    ensures Spared(net, Acted(net, w.replicas[a.i], a)) && SeenIn(net, actions, Acted(net, w.replicas[a.i], a))
  {
    var r := w.replicas[a.i];
    assert InOrder(net, w, r);
    match a
    case Admit(_, vote) =>
      AdmittedFrame(r, vote);
      if vote.Notarize? && Equivocates(r, vote.view, vote.block, vote.voter) {
        EquivocatorByzantine(net, w, r, vote.view, vote.block, vote.voter);
      }
    case Propose(_, view, p) =>
      if view in r.seen && r.seen[view] != BlockHash(net.sha, p.header) { ForkerByzantine(net, actions, r, a); }
      assert ProposedIn(net, a, view, BlockHash(net.sha, p.header));
    case Expel(_, _) =>
    case _ => OthersKeep(net, r, a);
  }

  ghost predicate AllSpared(net: Net, actions: seq<Action>, w: World) {
    forall i | net.Honest(i) && i in w.replicas :: Spared(net, w.replicas[i]) && SeenIn(net, actions, w.replicas[i])
  }

  lemma {:induction false} SparedUpTo(net: Net, actions: seq<Action>, n: nat)
    requires n <= |actions| && ValidNet(net) && Run(net, actions[..n]) && OneProposal(net, actions)
    ensures AllSpared(net, actions, After(net, actions[..n]))
  {
    if n > 0 {
      var init, a := actions[..n - 1], actions[n - 1];
      assert actions[..n][..n - 1] == init;
      SparedUpTo(net, actions, n - 1);
      RunInv(net, init);
      StepFrame(net, After(net, init), a);
      ActedSpared(net, actions, After(net, init), a);
    }
  }

  /** No honest member is ever halted: over every run in which honest leaders propose once, the voters any
      honest replica has halted are Byzantine. */
  lemma {:induction false} HonestNeverHalted(net: Net, actions: seq<Action>, i: nat, k: nat)
    requires ValidNet(net) && Run(net, actions) && OneProposal(net, actions)
    requires net.Honest(i) && i in After(net, actions).replicas && net.Honest(k)
    ensures k !in After(net, actions).replicas[i].halted
  {
    assert actions[..|actions|] == actions;
    SparedUpTo(net, actions, |actions|);
  }
}

/** Execution certificates over Minimmit: a height is finalized once its block is consensus-final and members
    of weight L attested one execution of it. */
module MinimmitExecution {
  import opened Bytes
  import opened Hashing
  import opened Quorum
  import opened Minimmit
  import opened MinimmitChain

  const DOMAIN_EXEC_COMMIT := Ascii("dexos:consensus:exec-commit:v1")

  // ---- attestations --------------------------------------------------------

  /** What an `ExecAttest` says: the block notarized in this view, at this height, executed to this root. */
  datatype Claim = Claim(view: u64, height: u64, block: Hash, root: Hash)

  function ClaimBytes(epoch: u64, c: Claim): seq<byte> {
    LE(epoch, 8) + (LE(c.view, 8) + (LE(c.height, 8) + (AsBytes(c.block) + AsBytes(c.root))))
  }

  function ClaimPreimage(epoch: u64, c: Claim): seq<byte> { Preimage(DOMAIN_EXEC_COMMIT, ClaimBytes(epoch, c)) }

  /** `execution_commitment_digest`. */
  function ClaimDigest(sha: Sha, epoch: u64, c: Claim): Hash {
    HashDomain(sha, DOMAIN_EXEC_COMMIT, ClaimBytes(epoch, c))
  }

  /** The signed bytes determine epoch and claim. */
  lemma {:induction false} ClaimPreimageInjective(e: u64, c: Claim, f: u64, d: Claim)
    requires ClaimPreimage(e, c) == ClaimPreimage(f, d)
    ensures e == f && c == d
  {
    PreimageInjective(DOMAIN_EXEC_COMMIT, ClaimBytes(e, c), DOMAIN_EXEC_COMMIT, ClaimBytes(f, d));
    ClaimBytesInjective(e, c, f, d);
  }

  lemma {:induction false} ClaimBytesInjective(e: u64, c: Claim, f: u64, d: Claim)
    requires ClaimBytes(e, c) == ClaimBytes(f, d)
    ensures e == f && c == d
  {
    var cHashes, dHashes := AsBytes(c.block) + AsBytes(c.root), AsBytes(d.block) + AsBytes(d.root);
    CancelPrefix(LE(e, 8), LE(c.view, 8) + (LE(c.height, 8) + cHashes),
                 LE(f, 8), LE(d.view, 8) + (LE(d.height, 8) + dHashes));
    CancelPrefix(LE(c.view, 8), LE(c.height, 8) + cHashes, LE(d.view, 8), LE(d.height, 8) + dHashes);
    CancelPrefix(LE(c.height, 8), cHashes, LE(d.height, 8), dHashes);
    CancelPrefix(AsBytes(c.block), AsBytes(c.root), AsBytes(d.block), AsBytes(d.root));
    Pow256Widths();
    LEInjective(e, f, 8);
    LEInjective(c.view, d.view, 8);
    LEInjective(c.height, d.height, 8);
    AsBytesInjective(c.block, d.block);
    AsBytesInjective(c.root, d.root);
  }

  // ---- one replica's gate --------------------------------------------------

  datatype Stage = ConsensusFinal(block: Hash) | Finalized(block: Hash, root: Hash)

  /** The attestations of one height: voters by digest, and each voter's first digest. */
  datatype ExecTally = ExecTally(votes: map<Hash, set<nat>>, first: map<nat, Hash>)

  datatype Gate = Gate(votes: map<nat, ExecTally>, certs: map<nat, Hash>, stages: map<nat, Stage>)

  const NEW_GATE := Gate(map[], map[], map[])

  function TallyOf(g: Gate, h: nat): ExecTally { if h in g.votes then g.votes[h] else ExecTally(map[], map[]) }

  function VotersOf(t: ExecTally, d: Hash): set<nat> { if d in t.votes then t.votes[d] else {} }

  /** The attestation is about a block this replica verified, in its view and at its height. */
  predicate Concerns(r: Replica, c: Claim) {
    c.block in r.blocks && r.blocks[c.block].view == c.view && r.blocks[c.block].header.height == c.height
  }

  /** The voter first attested something else at this height. */
  predicate Doubles(t: ExecTally, k: nat, d: Hash) { k in t.first && t.first[k] != d }

  function Counted(t: ExecTally, k: nat, d: Hash): ExecTally {
    ExecTally(t.votes[d := VotersOf(t, d) + {k}], t.first[k := d])
  }

  function VotesPurged(t: ExecTally, k: nat): ExecTally { t.(votes := map d | d in t.votes :: t.votes[d] - {k}) }

  function GatePurged(g: Gate, k: nat): Gate { g.(votes := map h | h in g.votes :: VotesPurged(g.votes[h], k)) }

  /** `try_complete_finality`. */
  function Completed(g: Gate, h: nat): Gate {
    if h in g.certs && h in g.stages && g.stages[h].ConsensusFinal? then
      g.(stages := g.stages[h := Finalized(g.stages[h].block, g.certs[h])], votes := g.votes - {h})
    else g
  }

  /** The height's block is consensus-final. */
  function Marked(g: Gate, h: nat, block: Hash): Gate {
    Completed(g.(stages := g.stages[h := ConsensusFinal(block)]), h)
  }

  /** The first certificate of a height stays. */
  function Certify(g: Gate, h: nat, root: Hash): Gate {
    Completed(if h in g.certs then g else g.(certs := g.certs[h := root]), h)
  }

  /** The attestation makes the replica halt its signer. */
  predicate Forks(c: Committee, sha: Sha, r: Replica, g: Gate, k: nat, claim: Claim) {
    Concerns(r, claim) && Doubles(TallyOf(g, claim.height), k, ClaimDigest(sha, c.epoch, claim))
  }

  /** `on_exec_attest`, past its signature check. */
  ghost function Heard(c: Committee, sha: Sha, r: Replica, g: Gate, k: nat, claim: Claim): Gate {
    var d, h := ClaimDigest(sha, c.epoch, claim), claim.height;
    if !Concerns(r, claim) then g
    else if Forks(c, sha, r, g, k, claim) then GatePurged(g, k)
    else
      var counted := g.(votes := g.votes[h := Counted(TallyOf(g, h), k, d)]);
      if Weight(c.Members(), VotersOf(counted.votes[h], d)) < c.L() then counted else Certify(counted, h, claim.root)
  }

  // ---- the gate opens at L -------------------------------------------------

  /** The same claim, heard from these voters in turn. */
  ghost function HeardFrom(c: Committee, sha: Sha, r: Replica, g: Gate, ks: seq<nat>, claim: Claim): Gate {
    if ks == [] then g
    else Heard(c, sha, r, HeardFrom(c, sha, r, g, ks[..|ks| - 1], claim), ks[|ks| - 1], claim)
  }

  function VotersIn(ks: seq<nat>): set<nat> { set k | k in ks }

  /** The height waits for its certificate, with exactly these voters for the digest. */
  ghost predicate Waits(g: Gate, h: nat, block: Hash, d: Hash, voters: set<nat>) {
    && h in g.stages && g.stages[h] == ConsensusFinal(block) && h !in g.certs
    && VotersOf(TallyOf(g, h), d) == voters
    && forall k | k in TallyOf(g, h).first :: TallyOf(g, h).first[k] == d
  }

  lemma {:induction false} HeardOnce(
    c: Committee, sha: Sha, r: Replica, g: Gate, k: nat, claim: Claim, block: Hash, voters: set<nat>)
    requires Concerns(r, claim) && Waits(g, claim.height, block, ClaimDigest(sha, c.epoch, claim), voters)
    ensures var g', h := Heard(c, sha, r, g, k, claim), claim.height as nat;
            if Weight(c.Members(), voters + {k}) < c.L()
            then Waits(g', h, block, ClaimDigest(sha, c.epoch, claim), voters + {k})
            else h in g'.stages && g'.stages[h] == Finalized(block, claim.root)
  {
  }

  lemma HeardAfter(c: Committee, sha: Sha, r: Replica, g: Gate, k: nat, claim: Claim, h: nat)
    requires h in g.stages && g.stages[h].Finalized?
    ensures h in Heard(c, sha, r, g, k, claim).stages && Heard(c, sha, r, g, k, claim).stages[h] == g.stages[h]
  {
  }

  /** A consensus-final height is finalized, to the attested root, exactly when the voters heard weigh L, in
      whatever order they come and however often. */
  lemma {:induction false} GateOpensAtL(
    c: Committee, sha: Sha, r: Replica, g: Gate, ks: seq<nat>, claim: Claim, block: Hash)
    requires Concerns(r, claim) && Waits(g, claim.height, block, ClaimDigest(sha, c.epoch, claim), {}) && c.L() > 0
    ensures var g', h := HeardFrom(c, sha, r, g, ks, claim), claim.height as nat;
            if Weight(c.Members(), VotersIn(ks)) < c.L()
            then Waits(g', h, block, ClaimDigest(sha, c.epoch, claim), VotersIn(ks))
            else h in g'.stages && g'.stages[h] == Finalized(block, claim.root)
  {
    if ks == [] {
      WeightOfEmpty(c.Members());
      assert VotersIn(ks) == {};
    } else {
      var init, k := ks[..|ks| - 1], ks[|ks| - 1];
      assert VotersIn(ks) == VotersIn(init) + {k};
      GateOpensAtL(c, sha, r, g, init, claim, block);
      var before := HeardFrom(c, sha, r, g, init, claim);
      WeightMonotone(c.Members(), VotersIn(init), VotersIn(ks));
      if Weight(c.Members(), VotersIn(init)) < c.L() {
        HeardOnce(c, sha, r, before, k, claim, block, VotersIn(init));
      } else {
        HeardAfter(c, sha, r, before, k, claim, claim.height);
      }
    }
  }

  // ---- the mutable gate ----------------------------------------------------

  class ExecutionGate {
    const committee: Committee
    const sha: Sha
    var votes: map<nat, ExecTally>
    var certs: map<nat, Hash>
    var stages: map<nat, Stage>

    function State(): Gate
      reads this
    {
      Gate(votes, certs, stages)
    }

    constructor (committee: Committee, sha: Sha)
      ensures this.committee == committee && this.sha == sha && State() == NEW_GATE
    {
      this.committee, this.sha, votes, certs, stages := committee, sha, map[], map[], map[];
    }

    /** Once per height, and only with the certificate. */
    method TryComplete(h: nat) returns (finalized: bool)
      modifies this
      ensures finalized <==> h in old(certs) && h in old(stages) && old(stages)[h].ConsensusFinal?
      ensures State() == Completed(old(State()), h)
    {
      if h !in certs || h !in stages || stages[h].Finalized? { return false; }
      stages, votes := stages[h := Finalized(stages[h].block, certs[h])], votes - {h};
      return true;
    }

    /** The insertion in `consensus_finalize`. */
    method OnConsensusFinal(h: nat, block: Hash) returns (finalized: bool)
      modifies this
      ensures finalized <==> h in old(certs)
      ensures State() == Marked(old(State()), h, block)
    {
      stages := stages[h := ConsensusFinal(block)];
      finalized := TryComplete(h);
    }

    /** The part of `halt` that concerns attestations. */
    method HaltVoter(k: nat)
      modifies this
      ensures State() == GatePurged(old(State()), k)
    {
      votes := map h | h in votes :: VotesPurged(votes[h], k);
    }

    /** `on_exec_attest`: tally, halt on two claims, and certify at L. */
    method OnExecAttest(r: Replica, k: nat, claim: Claim) returns (halts: bool)
      requires ValidCommittee(committee)
      modifies this
      ensures halts <==> Forks(committee, sha, r, old(State()), k, claim)
      ensures State() == Heard(committee, sha, r, old(State()), k, claim)
    {
      if !Concerns(r, claim) { return false; }
      var d, h := ClaimDigest(sha, committee.epoch, claim), claim.height;
      var tally := TallyOf(State(), h);
      if Doubles(tally, k, d) {
        HaltVoter(k);
        return true;
      }
      tally := Counted(tally, k, d);
      votes := votes[h := tally];
      var weight := WeightOf(committee, VotersOf(tally, d));
      if weight < committee.L() { return false; }
      if h !in certs { certs := certs[h := claim.root]; }
      var _ := TryComplete(h);
      return false;
    }
  }

  // ---- replicas and the network --------------------------------------------

  /** The fixed setting: the consensus net, the deterministic execution of a block and so of its ancestors, and
      the claims anyone attests. */
  datatype Setting = Setting(net: Net, execute: Hash -> Hash, claims: iset<Claim>) {
    function Epoch(): u64 { net.committee.epoch }
    function Digest(c: Claim): Hash { ClaimDigest(net.sha, net.committee.epoch, c) }
  }

  ghost predicate ClaimsBind(x: Setting) {
    CollisionFree(x.net.sha, iset c: Claim | c in x.claims :: ClaimPreimage(x.Epoch(), c))
  }

  ghost predicate ValidSetting(x: Setting) { ValidNet(x.net) && ClaimsBind(x) }

  datatype Attestation = Attestation(voter: nat, claim: Claim)

  /** The consensus world, the honest members' gates, and every attestation an honest member ever signed. */
  datatype Ladder = Ladder(world: World, gates: map<nat, Gate>, signed: set<Attestation>)

  predicate Attested(x: Setting, s: Ladder, k: nat, c: Claim) {
    k < |x.net.Members()| && (k in x.net.byzantine || Attestation(k, c) in s.signed)
  }

  /** Heights that just became consensus-final. */
  function Fresh(g: Gate, r: Replica): set<nat> { set h | h in r.staged && h in r.chain && h !in g.stages }

  function StageOf(certs: map<nat, Hash>, h: nat, block: Hash): Stage {
    if h in certs then Finalized(block, certs[h]) else ConsensusFinal(block)
  }

  /** The gate after the replica's chain grew. */
  function Followed(g: Gate, r: Replica): Gate {
    var newly := Fresh(g, r);
    Gate(map h | h in g.votes && !(h in newly && h in g.certs) :: g.votes[h], g.certs,
         map h | h in g.stages.Keys + newly :: if h in g.stages then g.stages[h] else StageOf(g.certs, h, r.chain[h]))
  }

  function Grown(r: Replica, h: nat, block: Hash): Replica {
    r.(chain := r.chain[h := block], staged := r.staged + {h})
  }

  lemma {:induction false} StagesInTurn(g: Gate, r: Replica, h: nat, block: Hash)
    requires h !in r.chain && h !in r.staged && h !in g.stages
    ensures Fresh(g, Grown(r, h, block)) == Fresh(g, r) + {h}
    ensures Followed(g, Grown(r, h, block)).stages == Followed(g, r).stages[h := StageOf(g.certs, h, block)]
  {
    assert Fresh(g, Grown(r, h, block)) == Fresh(g, r) + {h};
  }

  lemma {:induction false} VotesInTurn(g: Gate, r: Replica, h: nat, block: Hash)
    requires Fresh(g, Grown(r, h, block)) == Fresh(g, r) + {h}
    ensures Followed(g, Grown(r, h, block)).votes
         == if h in g.certs then Followed(g, r).votes - {h} else Followed(g, r).votes
  {
    var after := Followed(g, Grown(r, h, block)).votes;
    if h in g.certs { assert after == Followed(g, r).votes - {h}; } else { assert after == Followed(g, r).votes; }
  }

  lemma MarkedIs(g: Gate, h: nat, block: Hash)
    ensures Marked(g, h, block) == g.(stages := g.stages[h := StageOf(g.certs, h, block)],
                                      votes := if h in g.certs then g.votes - {h} else g.votes)
  {
    var one := g.stages[h := ConsensusFinal(block)];
    if h in g.certs { assert one[h := Finalized(block, g.certs[h])] == g.stages[h := Finalized(block, g.certs[h])]; }
  }

  /** The same as marking the heights one after another. */
  lemma {:induction false} FollowedInTurn(g: Gate, r: Replica, h: nat, block: Hash)
    requires h !in r.chain && h !in r.staged && h !in g.stages
    ensures Followed(g, Grown(r, h, block)) == Marked(Followed(g, r), h, block)
  {
    StagesInTurn(g, r, h, block);
    VotesInTurn(g, r, h, block);
    MarkedIs(Followed(g, r), h, block);
  }

  /** The voter a consensus step halts. */
  function Halts(net: Net, r: Replica, a: Action): Option<nat> {
    match a
    case Admit(_, Notarize(v, b, k)) => if k !in r.halted && Equivocates(r, v, b, k) then Some(k) else None
    case Propose(_, v, p) =>
      if v <= r.view && v in r.seen && r.seen[v] != BlockHash(net.sha, p.header) then Some(Leader(net.committee, v))
      else None
    case Expel(_, k) => Some(k)
    case _ => None
  }

  /** Halting drops the voter's attestations with its votes. */
  function Cleared(g: Gate, halted: Option<nat>): Gate { if halted.Some? then GatePurged(g, halted.value) else g }

  datatype Move =
    | Consensus(a: Action)                      // a step of the consensus replica
    | Attest(i: nat, claim: Claim)              // the node executed a consensus-final block
    | Hear(i: nat, k: nat, claim: Claim)        // an attestation reaches a gate

  ghost predicate Possible(x: Setting, s: Ladder, m: Move) {
    match m
    case Consensus(a) => Enabled(x.net, s.world, a) && a.i in s.gates && !a.Expel?
    case Attest(i, c) =>
      && x.net.Honest(i) && i in s.world.replicas && i in s.gates && c in x.claims
      && (c.height as nat) in s.gates[i].stages && s.gates[i].stages[c.height].block == c.block
      && NotarizedAt(s.world.replicas[i].proofs, c.view, c.block) && c.root == x.execute(c.block)
      && forall t | t in s.signed && t.voter == i :: t.claim.height != c.height
    case Hear(i, k, c) =>
      x.net.Honest(i) && i in s.world.replicas && i in s.gates && c in x.claims && Attested(x, s, k, c)
  }

  ghost predicate Expels(x: Setting, s: Ladder, i: nat, k: nat, c: Claim)
    requires i in s.world.replicas && i in s.gates
  {
    Forks(x.net.committee, x.net.sha, s.world.replicas[i], s.gates[i], k, c)
  }

  ghost function Moved(x: Setting, s: Ladder, m: Move): Ladder
    requires Possible(x, s, m)
  {
    match m
    case Consensus(a) =>
      var world := Apply(x.net, s.world, a);
      var g := Cleared(s.gates[a.i], Halts(x.net, s.world.replicas[a.i], a));
      Ladder(world, s.gates[a.i := Followed(g, world.replicas[a.i])], s.signed)
    case Attest(i, c) => s.(signed := s.signed + {Attestation(i, c)})
    case Hear(i, k, c) =>
      var r := s.world.replicas[i];
      var world := if Expels(x, s, i, k, c) then s.world.(replicas := s.world.replicas[i := Purged(r, k)]) else s.world;
      Ladder(world, s.gates[i := Heard(x.net.committee, x.net.sha, r, s.gates[i], k, c)], s.signed)
  }
}

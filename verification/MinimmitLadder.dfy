/** Execution finality over every run: what a finalized height means, and that replicas agree on it. */
module MinimmitLadder {
  import opened Bytes
  import opened Hashing
  import opened Quorum
  import opened Minimmit
  import opened MinimmitChain
  import opened MinimmitExecution

  // ---- chains only grow ----------------------------------------------------

  lemma {:induction false} FinalizeKeeps(r: Replica, view: nat, block: Hash)
    ensures SubMap(r.chain, Finalize(r, view, block).chain)
  {
    var walked := Walk(r.chain, r.blocks, block, {});
    if walked.Found? {
      WalkPlaced(r.chain, r.blocks, block, {});
      FillKeeps(r.chain, r.staged, r.blocks, walked.path);
    }
  }

  lemma {:induction false} TakenKeeps(r: Replica, view: nat, block: Hash, large: bool)
    ensures SubMap(r.chain, Taken(r, view, block, large).chain)
  {
    StoreFrame(r, view, Notarized(block, large));
    FinalizeKeeps(Store(r, view, Notarized(block, large)), view, block);
  }

  lemma {:induction false} JudgedKeeps(sha: Sha, genesis: Hash, r: Replica, view: nat, block: Hash, valid: bool)
    ensures SubMap(r.chain, Judged(sha, genesis, r, view, block, valid).chain)
  {
    if Late(sha, r, view, block, valid) {
      JudgedLate(sha, genesis, r, view, block, valid);
      FinalizeKeeps(Kept(r, view, block), view, block);
    } else {
      JudgedInTime(sha, genesis, r, view, block, valid);
    }
  }

  /** No step takes a block off a chain or replaces one. */
  lemma {:induction false} ActedKeeps(net: Net, r: Replica, a: Action)
    ensures SubMap(r.chain, Acted(net, r, a).chain)
  {
    match a
    case TakeNotarization(_, view, block, signers) =>
      TakenKeeps(r, view, block, Weight(net.Members(), signers) >= net.committee.L());
    case Verdict(_, view, block, valid) => JudgedKeeps(net.sha, net.genesis, r, view, block, valid);
    case _ => QuietTip(net, r, a);
  }

  // ---- what every move keeps -----------------------------------------------

  ghost predicate Says(x: Setting, s: Ladder, k: nat, h: nat, d: Hash, c: Claim) {
    c in x.claims && c.height == h && x.Digest(c) == d && Attested(x, s, k, c)
  }

  /** The voter signed this digest, for this height. */
  ghost predicate Signs(x: Setting, s: Ladder, k: nat, h: nat, d: Hash) { exists c :: Says(x, s, k, h, d, c) }

  ghost predicate TallySigned(x: Setting, s: Ladder, h: nat, t: ExecTally) {
    && (forall d, k | d in t.votes && k in t.votes[d] :: Signs(x, s, k, h, d))
    && (forall k | k in t.first :: Signs(x, s, k, h, t.first[k]))
  }

  ghost predicate Supports(x: Setting, s: Ladder, c: Claim, signers: set<nat>) {
    && c in x.claims && Weight(x.net.Members(), signers) >= x.net.committee.L()
    && forall k | k in signers :: Signs(x, s, k, c.height, x.Digest(c))
  }

  /** Members of weight L signed one claim of this height and root. */
  ghost predicate CertAt(x: Setting, s: Ladder, h: nat, root: Hash) {
    exists c: Claim, signers :: c.height == h && c.root == root && Supports(x, s, c, signers)
  }

  ghost predicate GateSound(x: Setting, s: Ladder, g: Gate) {
    && (forall h | h in g.votes :: TallySigned(x, s, h, g.votes[h]))
    && (forall h | h in g.certs :: CertAt(x, s, h, g.certs[h]))
  }

  ghost predicate StageFits(r: Replica, g: Gate, h: nat)
    requires h in g.stages
  {
    h in r.chain && g.stages[h] == StageOf(g.certs, h, r.chain[h])
  }

  /** A height is staged only on the chain's own block, and finalized exactly if it has a certificate. */
  ghost predicate StagesFit(r: Replica, g: Gate) { forall h | h in g.stages :: StageFits(r, g, h) }

  predicate SameHeight(a: Attestation, b: Attestation) { a.voter == b.voter && a.claim.height == b.claim.height }

  ghost predicate SignedOnce(s: Ladder) {
    forall a, b | a in s.signed && b in s.signed && SameHeight(a, b) :: a == b
  }

  /** An honest attestation is about the signer's own chain. */
  ghost predicate Earned(x: Setting, s: Ladder, a: Attestation) {
    && x.net.Honest(a.voter) && a.voter in s.world.replicas && a.claim.root == x.execute(a.claim.block)
    && var chain := s.world.replicas[a.voter].chain;
       (a.claim.height as nat) in chain && chain[a.claim.height] == a.claim.block
  }

  ghost predicate AllEarned(x: Setting, s: Ladder) { forall a | a in s.signed :: Earned(x, s, a) }

  ghost predicate GateOk(x: Setting, s: Ladder, i: nat) {
    && i in s.world.replicas && i in s.gates
    && GateSound(x, s, s.gates[i]) && StagesFit(s.world.replicas[i], s.gates[i])
  }

  ghost predicate LadderInv(x: Setting, s: Ladder) {
    SignedOnce(s) && AllEarned(x, s) && forall i | x.net.Honest(i) :: GateOk(x, s, i)
  }

  // ---- attestations only accumulate ----------------------------------------

  lemma {:induction false} SignsGrows(x: Setting, s: Ladder, s': Ladder, k: nat, h: nat, d: Hash)
    requires s.signed <= s'.signed && Signs(x, s, k, h, d)
    ensures Signs(x, s', k, h, d)
  {
    var c :| Says(x, s, k, h, d, c);
    assert Says(x, s', k, h, d, c);
  }

  lemma {:induction false} CertGrows(x: Setting, s: Ladder, s': Ladder, h: nat, root: Hash)
    requires s.signed <= s'.signed && CertAt(x, s, h, root)
    ensures CertAt(x, s', h, root)
  {
    var c: Claim, signers :| c.height == h && c.root == root && Supports(x, s, c, signers);
    forall k | k in signers ensures Signs(x, s', k, c.height, x.Digest(c)) {
      SignsGrows(x, s, s', k, c.height, x.Digest(c));
    }
    assert Supports(x, s', c, signers);
  }

  lemma {:induction false} SoundGrows(x: Setting, s: Ladder, s': Ladder, g: Gate)
    requires s.signed <= s'.signed && GateSound(x, s, g)
    ensures GateSound(x, s', g)
  {
    forall k, h, d | Signs(x, s, k, h, d) ensures Signs(x, s', k, h, d) { SignsGrows(x, s, s', k, h, d); }
    forall h | h in g.votes ensures TallySigned(x, s', h, g.votes[h]) { assert TallySigned(x, s, h, g.votes[h]); }
    forall h | h in g.certs ensures CertAt(x, s', h, g.certs[h]) { CertGrows(x, s, s', h, g.certs[h]); }
  }

  // ---- one attestation -----------------------------------------------------

  lemma {:induction false} CountedSigned(x: Setting, s: Ladder, g: Gate, k: nat, c: Claim)
    requires GateSound(x, s, g) && c in x.claims && Attested(x, s, k, c)
    ensures TallySigned(x, s, c.height, Counted(TallyOf(g, c.height), k, x.Digest(c)))
  {
    assert Says(x, s, k, c.height, x.Digest(c), c);
    if (c.height as nat) in g.votes { assert TallySigned(x, s, c.height, g.votes[c.height]); }
  }

  lemma {:induction false} PurgedSound(x: Setting, s: Ladder, g: Gate, k: nat)
    requires GateSound(x, s, g)
    ensures GateSound(x, s, GatePurged(g, k))
  {
    forall h | h in g.votes ensures TallySigned(x, s, h, VotesPurged(g.votes[h], k)) {
      assert TallySigned(x, s, h, g.votes[h]);
    }
  }

  lemma CertifiedFrame(g: Gate, h: nat, root: Hash)
    ensures var g' := Certify(g, h, root);
            && (forall n | n in g'.votes :: n in g.votes && g'.votes[n] == g.votes[n])
            && g'.certs == if h in g.certs then g.certs else g.certs[h := root]
  {
  }

  lemma {:induction false} CertifiedSound(x: Setting, s: Ladder, g: Gate, c: Claim)
    requires GateSound(x, s, g) && c in x.claims && (c.height as nat) in g.votes
    requires Weight(x.net.Members(), VotersOf(g.votes[c.height], x.Digest(c))) >= x.net.committee.L()
    ensures GateSound(x, s, Certify(g, c.height, c.root))
  {
    CertifiedFrame(g, c.height, c.root);
    var voters := VotersOf(g.votes[c.height], x.Digest(c));
    assert TallySigned(x, s, c.height, g.votes[c.height]);
    assert Supports(x, s, c, voters);
    assert CertAt(x, s, c.height, c.root);
  }

  lemma {:induction false} HeardSound(x: Setting, s: Ladder, r: Replica, g: Gate, k: nat, c: Claim)
    requires GateSound(x, s, g) && c in x.claims && Attested(x, s, k, c)
    ensures GateSound(x, s, Heard(x.net.committee, x.net.sha, r, g, k, c))
  {
    var d, h := x.Digest(c), c.height as nat;
    PurgedSound(x, s, g, k);
    CountedSigned(x, s, g, k, c);
    var counted := g.(votes := g.votes[h := Counted(TallyOf(g, h), k, d)]);
    assert GateSound(x, s, counted);
    if Weight(x.net.Members(), VotersOf(counted.votes[h], d)) >= x.net.committee.L() {
      CertifiedSound(x, s, counted, c);
    }
  }

  lemma {:induction false} CertifiedFits(r: Replica, g: Gate, h: nat, root: Hash)
    requires StagesFit(r, g)
    ensures StagesFit(r, Certify(g, h, root))
  {
    var g' := Certify(g, h, root);
    forall n | n in g'.stages ensures StageFits(r, g', n) { assert StageFits(r, g, n); }
  }

  lemma {:induction false} HeardFits(c: Committee, sha: Sha, r: Replica, g: Gate, k: nat, claim: Claim)
    requires StagesFit(r, g)
    ensures StagesFit(r, Heard(c, sha, r, g, k, claim))
  {
    var d, h := ClaimDigest(sha, c.epoch, claim), claim.height as nat;
    var counted := g.(votes := g.votes[h := Counted(TallyOf(g, h), k, d)]);
    SameStages(r, g, counted);
    SameStages(r, g, GatePurged(g, k));
    CertifiedFits(r, counted, h, claim.root);
  }

  lemma {:induction false} SameStages(r: Replica, g: Gate, g': Gate)
    requires StagesFit(r, g) && g'.stages == g.stages && g'.certs == g.certs
    ensures StagesFit(r, g')
  {
    forall n | n in g'.stages ensures StageFits(r, g', n) { assert StageFits(r, g, n); }
  }

  /** Whoever is halted for attesting two executions is Byzantine. */
  lemma {:induction false} DoublerByzantine(x: Setting, s: Ladder, i: nat, k: nat, c: Claim)
    requires SignedOnce(s) && GateOk(x, s, i) && Attested(x, s, k, c) && Expels(x, s, i, k, c)
    ensures !x.net.Honest(k)
  {
    var h := c.height as nat;
    var first := s.gates[i].votes[h].first[k];
    assert TallySigned(x, s, h, s.gates[i].votes[h]);
    var c' :| Says(x, s, k, h, first, c');
    assert SameHeight(Attestation(k, c), Attestation(k, c'));
  }

  // ---- a growing chain -----------------------------------------------------

  lemma {:induction false} FollowedFits(r: Replica, r': Replica, g: Gate)
    requires StagesFit(r, g) && SubMap(r.chain, r'.chain)
    ensures StagesFit(r', Followed(g, r'))
  {
    var g' := Followed(g, r');
    forall n | n in g'.stages ensures StageFits(r', g', n) { if n in g.stages { assert StageFits(r, g, n); } }
  }

  lemma {:induction false} FollowedSound(x: Setting, s: Ladder, g: Gate, r: Replica)
    requires GateSound(x, s, g)
    ensures GateSound(x, s, Followed(g, r))
  {
    var g' := Followed(g, r);
    forall h | h in g'.votes ensures TallySigned(x, s, h, g'.votes[h]) { assert TallySigned(x, s, h, g.votes[h]); }
  }

  // ---- one move ------------------------------------------------------------

  /** The consensus actions a move amounts to. */
  ghost function Shadow(x: Setting, s: Ladder, m: Move): seq<Action>
    requires Possible(x, s, m)
  {
    match m
    case Consensus(a) => [a]
    case Attest(_, _) => []
    case Hear(i, k, c) => if Expels(x, s, i, k, c) then [Expel(i, k)] else []
  }

  lemma {:induction false} EarnedGrows(x: Setting, s: Ladder, s': Ladder, a: Attestation)
    requires Earned(x, s, a) && a.voter in s'.world.replicas
    requires SubMap(s.world.replicas[a.voter].chain, s'.world.replicas[a.voter].chain)
    ensures Earned(x, s', a)
  {
  }

  lemma {:induction false} ConsensusKeeps(x: Setting, s: Ladder, a: Action)
    requires LadderInv(x, s) && Possible(x, s, Consensus(a))
    ensures LadderInv(x, Moved(x, s, Consensus(a)))
  {
    var s' := Moved(x, s, Consensus(a));
    var r, r' := s.world.replicas[a.i], s'.world.replicas[a.i];
    ActedKeeps(x.net, r, a);
    StepFrame(x.net, s.world, a);
    forall t | t in s'.signed ensures Earned(x, s', t) { EarnedGrows(x, s, s', t); }
    forall i | x.net.Honest(i) ensures GateOk(x, s', i) {
      assert GateOk(x, s, i);
      SoundGrows(x, s, s', s.gates[i]);
      if i == a.i { ClearedFollows(x, s', r, r', s.gates[i], Halts(x.net, r, a)); }
    }
  }

  lemma {:induction false} ClearedFollows(
    x: Setting, s: Ladder, r: Replica, r': Replica, g: Gate, halted: Option<nat>)
    requires GateSound(x, s, g) && StagesFit(r, g) && SubMap(r.chain, r'.chain)
    ensures GateSound(x, s, Followed(Cleared(g, halted), r')) && StagesFit(r', Followed(Cleared(g, halted), r'))
  {
    if halted.Some? { PurgedSound(x, s, g, halted.value); }
    SameStages(r, g, Cleared(g, halted));
    FollowedFits(r, r', Cleared(g, halted));
    FollowedSound(x, s, Cleared(g, halted), r');
  }

  lemma {:induction false} AttestKeeps(x: Setting, s: Ladder, i: nat, c: Claim)
    requires LadderInv(x, s) && Possible(x, s, Attest(i, c))
    ensures LadderInv(x, Moved(x, s, Attest(i, c)))
  {
    var s' := Moved(x, s, Attest(i, c));
    assert GateOk(x, s, i) && StageFits(s.world.replicas[i], s.gates[i], c.height);
    forall t | t in s'.signed ensures Earned(x, s', t) { if t in s.signed { EarnedGrows(x, s, s', t); } }
    forall j | x.net.Honest(j) ensures GateOk(x, s', j) {
      assert GateOk(x, s, j);
      SoundGrows(x, s, s', s.gates[j]);
    }
  }

  lemma {:induction false} HearKeeps(x: Setting, s: Ladder, i: nat, k: nat, c: Claim)
    requires LadderInv(x, s) && Possible(x, s, Hear(i, k, c))
    ensures LadderInv(x, Moved(x, s, Hear(i, k, c)))
  {
    var s' := Moved(x, s, Hear(i, k, c));
    var r, g := s.world.replicas[i], s.gates[i];
    assert GateOk(x, s, i);
    HeardSound(x, s, r, g, k, c);
    HeardFits(x.net.committee, x.net.sha, r, g, k, c);
    forall t | t in s'.signed ensures Earned(x, s', t) { EarnedGrows(x, s, s', t); }
    forall j | x.net.Honest(j) ensures GateOk(x, s', j) {
      assert GateOk(x, s, j);
      SoundGrows(x, s, s', s'.gates[j]);
      FitsSameChain(s.world.replicas[j], s'.world.replicas[j], s'.gates[j]);
    }
  }

  lemma {:induction false} FitsSameChain(r: Replica, r': Replica, g: Gate)
    requires StagesFit(r, g) && r'.chain == r.chain
    ensures StagesFit(r', g)
  {
    forall n | n in g.stages ensures StageFits(r', g, n) { assert StageFits(r, g, n); }
  }

  lemma {:induction false} MoveKeeps(x: Setting, s: Ladder, m: Move)
    requires LadderInv(x, s) && Possible(x, s, m)
    ensures LadderInv(x, Moved(x, s, m))
  {
    match m
    case Consensus(a) => ConsensusKeeps(x, s, a);
    case Attest(i, c) => AttestKeeps(x, s, i, c);
    case Hear(i, k, c) => HearKeeps(x, s, i, k, c);
  }

  /** A move of the ladder is a step of the consensus world, or leaves it alone. */
  lemma {:induction false} MoveShadows(x: Setting, s: Ladder, m: Move, actions: seq<Action>)
    requires LadderInv(x, s) && Possible(x, s, m) && Run(x.net, actions) && s.world == After(x.net, actions)
    ensures Run(x.net, actions + Shadow(x, s, m))
    ensures Moved(x, s, m).world == After(x.net, actions + Shadow(x, s, m))
  {
    match m
    case Consensus(a) => RunOn(x.net, actions, a);
    case Attest(_, _) => assert actions + [] == actions;
    case Hear(i, k, c) =>
      if Expels(x, s, i, k, c) {
        assert GateOk(x, s, i);
        DoublerByzantine(x, s, i, k, c);
        RunOn(x.net, actions, Expel(i, k));
        assert s.world.cast + {} == s.world.cast;
      } else {
        assert actions + [] == actions;
      }
  }

  // ---- whole runs ----------------------------------------------------------

  function LadderStart(x: Setting): Ladder {
    Ladder(Start(x.net), map i: nat | 0 <= i < |x.net.Members()| && i !in x.net.byzantine :: NEW_GATE, {})
  }

  ghost predicate LadderRun(x: Setting, moves: seq<Move>) {
    moves == [] ||
    (var init := moves[..|moves| - 1];
     LadderRun(x, init) && Possible(x, Climbed(x, init), moves[|moves| - 1]))
  }

  ghost function Climbed(x: Setting, moves: seq<Move>): Ladder {
    if moves == [] then LadderStart(x)
    else
      var s := Climbed(x, moves[..|moves| - 1]);
      if Possible(x, s, moves[|moves| - 1]) then Moved(x, s, moves[|moves| - 1]) else s
  }

  /** The consensus run inside a run of the ladder. */
  ghost function Shadows(x: Setting, moves: seq<Move>): seq<Action> {
    if moves == [] then []
    else
      var init := moves[..|moves| - 1];
      var s, m := Climbed(x, init), moves[|moves| - 1];
      Shadows(x, init) + (if Possible(x, s, m) then Shadow(x, s, m) else [])
  }

  /** Over every run of the ladder the consensus world is that of a run of the protocol. */
  lemma {:induction false} RunClimbs(x: Setting, moves: seq<Move>)
    requires ValidSetting(x) && LadderRun(x, moves)
    ensures LadderInv(x, Climbed(x, moves))
    ensures Run(x.net, Shadows(x, moves)) && Climbed(x, moves).world == After(x.net, Shadows(x, moves))
  {
    if moves != [] {
      var init, m := moves[..|moves| - 1], moves[|moves| - 1];
      RunClimbs(x, init);
      MoveKeeps(x, Climbed(x, init), m);
      MoveShadows(x, Climbed(x, init), m, Shadows(x, init));
    }
  }

  /** A certificate's claim was signed by an honest member. */
  lemma {:induction false} CertSigner(x: Setting, s: Ladder, h: nat, root: Hash) returns (a: Attestation)
    requires ValidSetting(x) && LadderInv(x, s) && CertAt(x, s, h, root)
    ensures a in s.signed && a.claim.height == h && a.claim.root == root && Earned(x, s, a)
  {
    var c: Claim, signers :| c.height == h && c.root == root && Supports(x, s, c, signers);
    var k := HonestMember(x.net, signers);
    var c' :| Says(x, s, k, c.height, x.Digest(c), c');
    assert Collide(x.net.sha, ClaimPreimage(x.Epoch(), c), ClaimPreimage(x.Epoch(), c'));
    ClaimPreimageInjective(x.Epoch(), c, x.Epoch(), c');
    a := Attestation(k, c');
  }

  /** A finalized height: over every run, whatever certificate completed it, its block is the one the replica
      holds there, and its root is the execution of that block, although no step compares the certificate's
      block with it. */
  lemma {:induction false} FinalizedIsExecuted(x: Setting, moves: seq<Move>, i: nat, h: nat)
    requires ValidSetting(x) && LadderRun(x, moves) && x.net.Honest(i)
    ensures var s := Climbed(x, moves);
            && i in s.gates && i in s.world.replicas
            && (h in s.gates[i].stages && s.gates[i].stages[h].Finalized? ==>
                  && h in s.world.replicas[i].chain && s.gates[i].stages[h].block == s.world.replicas[i].chain[h]
                  && s.gates[i].stages[h].root == x.execute(s.gates[i].stages[h].block))
  {
    var s := Climbed(x, moves);
    RunClimbs(x, moves);
    assert GateOk(x, s, i);
    if h in s.gates[i].stages && s.gates[i].stages[h].Finalized? {
      assert StageFits(s.world.replicas[i], s.gates[i], h);
      var a := CertSigner(x, s, h, s.gates[i].certs[h]);
      OneBlockPerHeight(x.net, Shadows(x, moves), i, a.voter, h);
    }
  }

  /** Over every run, two honest replicas never finalize one height with different blocks or different roots,
      and one that is only consensus-final already has the finalized block. */
  lemma {:induction false} ExecutionAgreement(x: Setting, moves: seq<Move>, i: nat, j: nat, h: nat)
    requires ValidSetting(x) && LadderRun(x, moves) && x.net.Honest(i) && x.net.Honest(j)
    ensures var s := Climbed(x, moves);
            && i in s.gates && j in s.gates
            && (h in s.gates[i].stages && h in s.gates[j].stages ==>
                  && s.gates[i].stages[h].block == s.gates[j].stages[h].block
                  && (s.gates[i].stages[h].Finalized? && s.gates[j].stages[h].Finalized? ==>
                        s.gates[i].stages[h].root == s.gates[j].stages[h].root))
  {
    var s := Climbed(x, moves);
    RunClimbs(x, moves);
    assert GateOk(x, s, i) && GateOk(x, s, j);
    if h in s.gates[i].stages && h in s.gates[j].stages {
      assert StageFits(s.world.replicas[i], s.gates[i], h) && StageFits(s.world.replicas[j], s.gates[j], h);
      OneBlockPerHeight(x.net, Shadows(x, moves), i, j, h);
      FinalizedIsExecuted(x, moves, i, h);
      FinalizedIsExecuted(x, moves, j, h);
    }
  }

  // ---- the ladder only rises -----------------------------------------------

  predicate Risen(g: Gate, g': Gate, h: nat)
    requires h in g.stages
  {
    && h in g'.stages && g'.stages[h].block == g.stages[h].block
    && (g.stages[h].Finalized? ==> g'.stages[h] == g.stages[h])
  }

  lemma {:induction false} MoveRises(x: Setting, s: Ladder, m: Move, i: nat, h: nat)
    requires Possible(x, s, m) && i in s.gates && h in s.gates[i].stages
    ensures i in Moved(x, s, m).gates && Risen(s.gates[i], Moved(x, s, m).gates[i], h)
  {
  }

  /** Once consensus-final a height keeps its block, and once finalized it keeps its root too, over every
      continuation of every run. */
  lemma {:induction false} LadderRises(x: Setting, moves: seq<Move>, n: nat, i: nat, h: nat)
    requires n <= |moves| && LadderRun(x, moves)
    requires i in Climbed(x, moves[..n]).gates && h in Climbed(x, moves[..n]).gates[i].stages
    ensures i in Climbed(x, moves).gates && Risen(Climbed(x, moves[..n]).gates[i], Climbed(x, moves).gates[i], h)
    decreases |moves|
  {
    if n == |moves| {
      assert moves[..n] == moves;
    } else {
      var init := moves[..|moves| - 1];
      assert init[..n] == moves[..n];
      LadderRises(x, init, n, i, h);
      MoveRises(x, Climbed(x, init), moves[|moves| - 1], i, h);
    }
  }
}

/** Minimmit consensus: every honest replica follows the voting rules, Byzantine members of weight at most B
    sign anything, and the network shows any replica any votes, proposals and certificates whose signatures
    verify. */
module Minimmit {
  import opened Bytes
  import opened Hashing
  import opened Quorum

  const DOMAIN_BLOCK := Ascii("dexos:consensus:minimmit:block:v1")
  const VIEW_HORIZON := 64

  // ---- blocks --------------------------------------------------------------

  datatype Header = Header(height: u64, parent: Hash, payload: Hash)

  function HeaderBytes(h: Header): seq<byte> { LE(h.height, 8) + (AsBytes(h.parent) + AsBytes(h.payload)) }

  function HeaderPreimage(h: Header): seq<byte> { Preimage(DOMAIN_BLOCK, HeaderBytes(h)) }

  /** `BlockHeader::hash`. */
  function BlockHash(sha: Sha, h: Header): Hash { HashDomain(sha, DOMAIN_BLOCK, HeaderBytes(h)) }

  /** The hashed bytes determine height, parent and payload. */
  lemma {:induction false} HeaderPreimageInjective(a: Header, b: Header)
    requires HeaderPreimage(a) == HeaderPreimage(b)
    ensures a == b
  {
    PreimageInjective(DOMAIN_BLOCK, HeaderBytes(a), DOMAIN_BLOCK, HeaderBytes(b));
    CancelPrefix(LE(a.height, 8), AsBytes(a.parent) + AsBytes(a.payload),
                 LE(b.height, 8), AsBytes(b.parent) + AsBytes(b.payload));
    CancelPrefix(AsBytes(a.parent), AsBytes(a.payload), AsBytes(b.parent), AsBytes(b.payload));
    Pow256Widths();
    LEInjective(a.height, b.height, 8);
    AsBytesInjective(a.parent, b.parent);
    AsBytesInjective(a.payload, b.payload);
  }

  /** The fixed setting: committee, Byzantine members, hash function, genesis hash, and the headers anyone
      proposes. */
  datatype Net = Net(committee: Committee, byzantine: set<nat>, sha: Sha, genesis: Hash, headers: iset<Header>) {
    function Members(): seq<Validator> { committee.Members() }
    predicate Honest(i: nat) { i < |Members()| && i !in byzantine }
  }

  /** The hash has no collision among the proposed headers, and none of them hashes to the genesis hash. */
  ghost predicate HeadersBind(net: Net) {
    && CollisionFree(net.sha, iset h: Header | h in net.headers :: HeaderPreimage(h))
    && forall h | h in net.headers :: BlockHash(net.sha, h) != net.genesis
  }

  ghost predicate ValidNet(net: Net) {
    ValidCommittee(net.committee) && Weight(net.Members(), net.byzantine) <= net.committee.byzantine && HeadersBind(net)
  }

  ghost predicate Names(net: Net, block: Hash, h: Header) { h in net.headers && BlockHash(net.sha, h) == block }

  /** The parent and height of the proposed header with this hash. */
  ghost function ParentOf(net: Net, block: Hash): Hash {
    if h :| Names(net, block, h) then h.parent else net.genesis
  }

  ghost function HeightOf(net: Net, block: Hash): nat {
    if h :| Names(net, block, h) then h.height else 0
  }

  /** There is only one. */
  lemma {:induction false} NamedOnce(net: Net, block: Hash, h: Header)
    requires HeadersBind(net) && Names(net, block, h)
    ensures ParentOf(net, block) == h.parent && HeightOf(net, block) == h.height && block != net.genesis
  {
    forall g | Names(net, block, g) ensures g == h {
      assert Collide(net.sha, HeaderPreimage(g), HeaderPreimage(h));
      HeaderPreimageInjective(g, h);
    }
  }

  // ---- replicas ------------------------------------------------------------

  /** A stored proof; a notarization remembers whether its certificate reaches L. */
  datatype Proof = Notarized(block: Hash, large: bool) | Nullified

  datatype Proposal = Proposal(header: Header, parentView: Option<nat>)
  datatype Placed = Placed(view: nat, header: Header)

  /** One honest replica: its view and votes in it, proposals seen and waiting for the node's verdict, verified
      blocks, proofs, the two tallies, halted voters, and its finalized chain by height. */
  datatype Replica = Replica(
    view: nat, notarized: Option<Hash>, nullified: bool,
    seen: map<nat, Hash>, pending: map<nat, Proposal>, blocks: map<Hash, Placed>, proofs: map<nat, Proof>,
    notarizes: map<nat, map<Hash, set<nat>>>, nullifies: map<nat, set<nat>>, halted: set<nat>,
    tip: Option<nat>, chain: map<nat, Hash>, staged: set<nat>)

  function NewReplica(genesis: Hash): Replica {
    Replica(0, None, false, map[], map[], map[], map[], map[], map[], {}, None, map[0 := genesis], {})
  }

  datatype Vote = Notarize(view: nat, block: Hash, voter: nat) | Nullify(view: nat, voter: nat)

  /** Replicas of the honest members, and every vote an honest member ever cast. */
  datatype World = World(replicas: map<nat, Replica>, cast: set<Vote>)

  ghost predicate Total(net: Net, w: World) { forall i | net.Honest(i) :: i in w.replicas }

  // ---- votes and certificates ----------------------------------------------

  /** A vote with a verifying signature: Byzantine members sign anything, honest ones only what they cast. */
  predicate Sent(net: Net, w: World, v: Vote) {
    v.voter < |net.Members()| && (v.voter in net.byzantine || v in w.cast)
  }

  ghost predicate NotarizeQuorum(net: Net, w: World, view: nat, block: Hash, signers: set<nat>, threshold: nat) {
    (forall i | i in signers :: Sent(net, w, Notarize(view, block, i))) && Weight(net.Members(), signers) >= threshold
  }

  ghost predicate NullifyQuorum(net: Net, w: World, view: nat, signers: set<nat>) {
    (forall i | i in signers :: Sent(net, w, Nullify(view, i))) && Weight(net.Members(), signers) >= net.committee.M()
  }

  /** An M-notarization, an L-notarization, a nullification that the votes sent so far can make up. */
  ghost predicate MCert(net: Net, w: World, view: nat, block: Hash) {
    exists signers :: NotarizeQuorum(net, w, view, block, signers, net.committee.M())
  }

  ghost predicate LCert(net: Net, w: World, view: nat, block: Hash) {
    exists signers :: NotarizeQuorum(net, w, view, block, signers, net.committee.L())
  }

  ghost predicate NCert(net: Net, w: World, view: nat) {
    exists signers :: NullifyQuorum(net, w, view, signers)
  }

  // ---- the locking rule ----------------------------------------------------

  predicate NullAt(proofs: map<nat, Proof>, j: nat) { j in proofs && proofs[j].Nullified? }

  predicate NotarizedAt(proofs: map<nat, Proof>, j: nat, block: Hash) {
    j in proofs && proofs[j].Notarized? && proofs[j].block == block
  }

  predicate AllNullified(proofs: map<nat, Proof>, from: nat, to: nat) {
    forall j | from <= j < to :: NullAt(proofs, j)
  }

  /** `valid_parent`: the parent is notarized (or genesis) and every skipped view is nullified. */
  predicate ValidParent(proofs: map<nat, Proof>, genesis: Hash, view: nat, parent: Hash, parentView: Option<nat>) {
    match parentView
    case None => parent == genesis && AllNullified(proofs, 0, view)
    case Some(p) => p < view && NotarizedAt(proofs, p, parent) && AllNullified(proofs, p + 1, view)
  }

  /** `select_parent`: walk down to the first notarized view across nullified ones only. */
  function SelectParent(proofs: map<nat, Proof>, genesis: Hash, view: nat): Option<(Hash, Option<nat>)> {
    if view == 0 then Some((genesis, None))
    else if view - 1 !in proofs then None
    else
      match proofs[view - 1]
      case Notarized(block, _) => Some((block, Some(view - 1)))
      case Nullified => SelectParent(proofs, genesis, view - 1)
  }

  /** A leader's chosen parent always passes the voting rule on the same proofs, and it is the only one that does. */
  lemma {:induction false} SelectedParentIsTheValidOne(
    proofs: map<nat, Proof>, genesis: Hash, view: nat, parent: Hash, parentView: Option<nat>)
    ensures SelectParent(proofs, genesis, view) == Some((parent, parentView))
       <==> ValidParent(proofs, genesis, view, parent, parentView)
  {
    if view > 0 && NullAt(proofs, view - 1) {
      SelectedParentIsTheValidOne(proofs, genesis, view - 1, parent, parentView);
      assert ValidParent(proofs, genesis, view, parent, parentView) ==> parentView != Some(view - 1);
    } else if view > 0 {
      var last: nat := view - 1;
      assert AllNullified(proofs, 0, view) ==> NullAt(proofs, last);
      if parentView.Some? && parentView.value + 1 < view {
        assert AllNullified(proofs, parentView.value + 1, view) ==> NullAt(proofs, last);
      }
    }
  }

  // ---- the finalized chain -------------------------------------------------

  datatype Walked = Missing | Loops | Found(path: seq<Hash>)

  function Then(walked: Walked, rest: seq<Hash>): Walked {
    if walked.Found? then Found(walked.path + rest) else walked
  }

  /** The blocks from the chain up to the cursor, ancestors first; a header may be missing. */
  function Walk(chain: map<nat, Hash>, blocks: map<Hash, Placed>, cursor: Hash, seen: set<Hash>): Walked
    decreases |blocks.Keys - seen|
  {
    if cursor in chain.Values then Found([])
    else if cursor !in blocks then Missing
    else if cursor in seen then Loops
    else
      assert blocks.Keys - (seen + {cursor}) < blocks.Keys - seen;
      FewerLeft(blocks.Keys - (seen + {cursor}), blocks.Keys - seen);
      Then(Walk(chain, blocks, blocks[cursor].header.parent, seen + {cursor}), [cursor])
  }

  lemma {:induction false} FewerLeft(a: set<Hash>, b: set<Hash>)
    requires a < b
    ensures |a| < |b|
  {
    assert b == a + (b - a);
  }

  datatype Filled = Filled(chain: map<nat, Hash>, staged: set<nat>, complete: bool)

  predicate AllPlaced(blocks: map<Hash, Placed>, path: seq<Hash>) { forall i | 0 <= i < |path| :: path[i] in blocks }

  /** Each block of the path at its height, until one height is held by another block. */
  function Fill(chain: map<nat, Hash>, staged: set<nat>, blocks: map<Hash, Placed>, path: seq<Hash>): Filled
    requires AllPlaced(blocks, path)
    decreases |path|
  {
    if path == [] then Filled(chain, staged, true)
    else
      var block, height := path[0], blocks[path[0]].header.height;
      if height in chain && chain[height] != block then Filled(chain, staged, false)
      else if height in staged then Fill(chain, staged, blocks, path[1..])
      else Fill(chain[height := block], staged + {height}, blocks, path[1..])
  }

  lemma {:induction false} WalkPlaced(chain: map<nat, Hash>, blocks: map<Hash, Placed>, cursor: Hash, seen: set<Hash>)
    ensures Walk(chain, blocks, cursor, seen).Found? ==> AllPlaced(blocks, Walk(chain, blocks, cursor, seen).path)
    decreases |blocks.Keys - seen|
  {
    if cursor !in chain.Values && cursor in blocks && cursor !in seen {
      FewerLeft(blocks.Keys - (seen + {cursor}), blocks.Keys - seen);
      WalkPlaced(chain, blocks, blocks[cursor].header.parent, seen + {cursor});
    }
  }

  /** `prune`: proofs and tallies below the horizon go. */
  function Dropped(r: Replica, horizon: nat): Replica {
    r.(proofs := map v | v in r.proofs && v >= horizon :: r.proofs[v],
       notarizes := map v | v in r.notarizes && v >= horizon :: r.notarizes[v],
       nullifies := map v | v in r.nullifies && v >= horizon :: r.nullifies[v])
  }

  /** `consensus_finalize`: the ancestors not yet on the chain go in first; a taken height stops it. */
  function Finalize(r: Replica, view: nat, block: Hash): Replica {
    if r.tip.Some? && view <= r.tip.value then r
    else
      match Walk(r.chain, r.blocks, block, {})
      case Missing => r
      case Loops => r
      case Found(path) =>
        WalkPlaced(r.chain, r.blocks, block, {});
        var f := Fill(r.chain, r.staged, r.blocks, path);
        var filled := r.(chain := f.chain, staged := f.staged);
        if f.complete then Dropped(filled.(tip := Some(view)), SaturatingSub(view, VIEW_HORIZON)) else filled
  }

  // ---- one replica's transitions -------------------------------------------

  function WithNullify(r: Replica): Replica { r.(nullified := true) }

  /** `enter_view`. */
  function EnterView(r: Replica, next: nat): Replica {
    if next <= r.view then r else r.(view := next, notarized := None, nullified := false)
  }

  /** `MinimmitCommittee::leader`: round robin over epoch plus view, which wraps. */
  function Leader(c: Committee, view: nat): (k: nat)
    ensures c.Members() != [] ==> k < |c.Members()|
  {
    (c.epoch + view) % U64_SIZE % (if c.Members() == [] then 1 else |c.Members()|)
  }

  /** The proposal may wait for the node's verdict: in the current view if this replica may still vote for it,
      in an earlier one if it is the notarized one. */
  predicate Wanted(sha: Sha, genesis: Hash, r: Replica, view: nat, p: Proposal) {
    if view < r.view then NotarizedAt(r.proofs, view, BlockHash(sha, p.header))
    else && view == r.view && r.notarized == None && !r.nullified
         && ValidParent(r.proofs, genesis, view, p.header.parent, p.parentView)
  }

  /** `on_propose`, past its leader and signature checks: the first wanted proposal of a view waits, and a
      second, different one halts the view's leader. */
  function Buffered(c: Committee, sha: Sha, genesis: Hash, r: Replica, view: nat, p: Proposal): Replica {
    var block := BlockHash(sha, p.header);
    if view > r.view then r
    else if view in r.seen then if r.seen[view] == block then r else Purged(r, Leader(c, view))
    else if Wanted(sha, genesis, r, view, p) then
      r.(seen := r.seen[view := block], pending := r.pending[view := p])
    else r
  }

  /** The verdict concerns the waiting proposal and is favourable. */
  predicate Confirms(sha: Sha, r: Replica, view: nat, block: Hash, valid: bool) {
    view in r.pending && BlockHash(sha, r.pending[view].header) == block && valid
  }

  /** R2 votes: a confirmed proposal of the current view, under the locking rule, unless a vote was cast. */
  predicate Votes(sha: Sha, genesis: Hash, r: Replica, view: nat, block: Hash, valid: bool) {
    && Confirms(sha, r, view, block, valid) && view == r.view && r.notarized == None && !r.nullified
    && ValidParent(r.proofs, genesis, view, r.pending[view].header.parent, r.pending[view].parentView)
  }

  function Answered(r: Replica, view: nat): Replica { r.(pending := r.pending - {view}) }

  function Kept(r: Replica, view: nat, block: Hash): Replica
    requires view in r.pending
  {
    Answered(r, view).(blocks := r.blocks[block := Placed(view, r.pending[view].header)])
  }

  /** `on_proposal_verified`: the block is kept, then voted for, or, if its view was already left with an
      L-notarization of it, finalized. */
  function Judged(sha: Sha, genesis: Hash, r: Replica, view: nat, block: Hash, valid: bool): Replica {
    if !Confirms(sha, r, view, block, valid) then Answered(r, view)
    else
      var kept := Kept(r, view, block);
      if Votes(sha, genesis, r, view, block, valid) then kept.(notarized := Some(block))
      else if view != r.view && view in r.proofs && r.proofs[view] == Notarized(block, true) then
        Finalize(kept, view, block)
      else kept
  }

  /** `on_nullification`, and the storing part of `on_notarization`: the first proof of a view stays, except
      that an L-notarization replaces an M-notarization of the same block. */
  function Store(r: Replica, view: nat, proof: Proof): Replica {
    if view !in r.proofs then EnterView(r.(proofs := r.proofs[view := proof]), view + 1)
    else if proof.Notarized? && proof.large && !(r.proofs[view].Notarized? && r.proofs[view].large) then
      r.(proofs := r.proofs[view := proof])
    else r
  }

  /** `on_notarization` for a certificate of weight M, `large` if also of weight L. */
  function Taken(r: Replica, view: nat, block: Hash, large: bool): Replica {
    if view in r.proofs && !NotarizedAt(r.proofs, view, block) then r
    else
      var stored := Store(r, view, Notarized(block, large));
      if large then Finalize(stored, view, block) else stored
  }

  // ---- tallies -------------------------------------------------------------

  function TallyAt(notarizes: map<nat, map<Hash, set<nat>>>, view: nat): map<Hash, set<nat>> {
    if view in notarizes then notarizes[view] else map[]
  }

  function VotersFor(notarizes: map<nat, map<Hash, set<nat>>>, view: nat, block: Hash): set<nat> {
    var tally := TallyAt(notarizes, view);
    if block in tally then tally[block] else {}
  }

  function Nullifiers(nullifies: map<nat, set<nat>>, view: nat): set<nat> {
    if view in nullifies then nullifies[view] else {}
  }

  /** The voter already notarized another block in this view. */
  predicate Equivocates(r: Replica, view: nat, block: Hash, k: nat) {
    exists c | c in TallyAt(r.notarizes, view) :: c != block && k in TallyAt(r.notarizes, view)[c]
  }

  /** `halt`: the voter's votes go, and no more are admitted. */
  function Purged(r: Replica, k: nat): Replica {
    r.(halted := r.halted + {k},
       notarizes := map v | v in r.notarizes :: map c | c in r.notarizes[v] :: r.notarizes[v][c] - {k},
       nullifies := map v | v in r.nullifies :: r.nullifies[v] - {k})
  }

  /** `admit_notarize` and `admit_nullify`, past the signature, window and quota checks. */
  function Admitted(r: Replica, vote: Vote): Replica {
    if vote.voter in r.halted then r
    else
      match vote
      case Notarize(view, block, k) =>
        if Equivocates(r, view, block, k) then Purged(r, k)
        else
          var tally := TallyAt(r.notarizes, view)[block := VotersFor(r.notarizes, view, block) + {k}];
          r.(notarizes := r.notarizes[view := tally])
      case Nullify(view, k) => r.(nullifies := r.nullifies[view := Nullifiers(r.nullifies, view) + {k}])
  }

  /** The voters whose tallied votes in this view contradict the block: nullifiers and rival notarizers. */
  function Contradictors(r: Replica, view: nat, ours: Hash): set<nat> {
    var tally := TallyAt(r.notarizes, view);
    Nullifiers(r.nullifies, view) + set c, k | c in tally && c != ours && k in tally[c] :: k
  }

  // ---- steps ---------------------------------------------------------------

  datatype Action =
    | Admit(i: nat, vote: Vote)                                               // a vote reaches a tally
    | Propose(i: nat, view: nat, proposal: Proposal)                          // R1, and R2's admission
    | Verdict(i: nat, view: nat, block: Hash, valid: bool)                    // R2
    | TimeOut(i: nat)                                                         // R3
    | TakeNotarization(i: nat, view: nat, block: Hash, signers: set<nat>)     // R4, formed or received
    | TakeNullification(i: nat, view: nat, signers: set<nat>)                 // R5, formed or received
    | Contradict(i: nat)                                                      // R6
    | Expel(i: nat, k: nat)                                                   // k attested two executions

  ghost predicate Enabled(net: Net, w: World, a: Action) {
    && net.Honest(a.i) && a.i in w.replicas
    && var r := w.replicas[a.i];
       match a
       case Admit(_, vote) => Sent(net, w, vote)
       case Propose(_, _, proposal) => proposal.header in net.headers
       case Verdict(_, _, _, _) => true
       case TimeOut(_) => r.notarized == None && !r.nullified
       case Contradict(_) =>
         && r.notarized.Some? && !r.nullified
         && Weight(net.Members(), Contradictors(r, r.view, r.notarized.value)) >= net.committee.M()
       case TakeNotarization(_, view, block, signers) => NotarizeQuorum(net, w, view, block, signers, net.committee.M())
       case TakeNullification(_, view, signers) => NullifyQuorum(net, w, view, signers)
       case Expel(_, k) => !net.Honest(k)
  }

  ghost function Acted(net: Net, r: Replica, a: Action): Replica {
    match a
    case Admit(_, vote) => Admitted(r, vote)
    case Propose(_, view, proposal) => Buffered(net.committee, net.sha, net.genesis, r, view, proposal)
    case Verdict(_, view, block, valid) => Judged(net.sha, net.genesis, r, view, block, valid)
    case TimeOut(_) => WithNullify(r)
    case Contradict(_) => WithNullify(r)
    case TakeNotarization(_, view, block, signers) =>
      Taken(r, view, block, Weight(net.Members(), signers) >= net.committee.L())
    case TakeNullification(_, view, _) => Store(r, view, Nullified)
    case Expel(_, k) => Purged(r, k)
  }

  function NewVotes(net: Net, r: Replica, a: Action): set<Vote> {
    match a
    case Verdict(i, view, block, valid) =>
      if Votes(net.sha, net.genesis, r, view, block, valid) then {Notarize(view, block, i)} else {}
    case TimeOut(i) => {Nullify(r.view, i)}
    case Contradict(i) => {Nullify(r.view, i)}
    case _ => {}
  }

  ghost function Apply(net: Net, w: World, a: Action): World
    requires Enabled(net, w, a)
  {
    var r := w.replicas[a.i];
    World(w.replicas[a.i := Acted(net, r, a)], w.cast + NewVotes(net, r, a))
  }

  // ---- the mutable replica -------------------------------------------------

  /** The committee weight of a set of voters. */
  method WeightOf(committee: Committee, voters: set<nat>) returns (weight: u64)
    requires ValidCommittee(committee)
    ensures weight == Weight(committee.Members(), voters)
  {
    var members := committee.Members();
    weight := 0;
    ghost var counted: set<nat> := {};
    WeightOfEmpty(members);
    for k := 0 to |members|
      invariant counted == set j | 0 <= j < k && j in voters
      invariant weight == Weight(members, counted)
    {
      if k in voters {
        WeightInsert(members, counted, k);
        counted := counted + {k};
        WeightAtMostTotal(members, counted);
        weight := SaturatingAdd(weight, members[k].weight);
      }
    }
    WeightMonotone(members, counted, voters);
    WeightMonotone(members, voters, counted);
  }

  /** `MinimmitReplica`; each rule makes exactly its transition or none. */
  class MinimmitReplica {
    const committee: Committee
    const sha: Sha
    const genesis: Hash
    var view: nat
    var notarized: Option<Hash>
    var nullified: bool
    var seen: map<nat, Hash>
    var pending: map<nat, Proposal>
    var blocks: map<Hash, Placed>
    var proofs: map<nat, Proof>
    var notarizes: map<nat, map<Hash, set<nat>>>
    var nullifies: map<nat, set<nat>>
    var halted: set<nat>
    var tip: Option<nat>
    var chain: map<nat, Hash>
    var staged: set<nat>

    function State(): Replica
      reads this
    {
      Replica(view, notarized, nullified, seen, pending, blocks, proofs, notarizes, nullifies, halted, tip, chain,
              staged)
    }

    constructor (committee: Committee, sha: Sha, genesis: Hash)
      ensures this.committee == committee && this.sha == sha && this.genesis == genesis
      ensures State() == NewReplica(genesis)
    {
      this.committee, this.sha, this.genesis := committee, sha, genesis;
      view, notarized, nullified, seen, pending, blocks := 0, None, false, map[], map[], map[];
      proofs, notarizes, nullifies, halted := map[], map[], map[], {};
      tip, chain, staged := None, map[0 := genesis], {};
    }

    /** `valid_parent`: one scan over the skipped views. */
    method CheckParent(v: nat, parent: Hash, parentView: Option<nat>) returns (ok: bool)
      ensures ok == ValidParent(proofs, genesis, v, parent, parentView)
    {
      var from := 0;
      match parentView {
        case None => if parent != genesis { return false; }
        case Some(p) =>
          if p >= v || !NotarizedAt(proofs, p, parent) { return false; }
          from := p + 1;
      }
      for j := from to v
        invariant AllNullified(proofs, from, j)
      {
        if !NullAt(proofs, j) { return false; }
      }
      return true;
    }

    /** `select_parent`: one walk down from the view. */
    method ChooseParent(v: nat) returns (parent: Option<(Hash, Option<nat>)>)
      ensures parent == SelectParent(proofs, genesis, v)
    {
      var next := v;
      while next > 0
        invariant SelectParent(proofs, genesis, next) == SelectParent(proofs, genesis, v)
      {
        if next - 1 !in proofs { return None; }
        if proofs[next - 1].Notarized? { return Some((proofs[next - 1].block, Some(next - 1))); }
        next := next - 1;
      }
      return Some((genesis, None));
    }

    method Enter(next: nat)
      modifies this
      ensures State() == EnterView(old(State()), next) && chain == old(chain) && blocks == old(blocks)
    {
      if next <= view { return; }
      view, notarized, nullified := next, None, false;
    }

    /** R3: nullify the current view unless a vote was already cast in it. */
    method OnTimerFired(v: nat) returns (votes: bool)
      modifies this
      ensures votes <==> v == old(view) && old(notarized) == None && !old(nullified)
      ensures State() == if votes then WithNullify(old(State())) else old(State())
    {
      if v != view || notarized.Some? || nullified { return false; }
      nullified := true;
      return true;
    }

    /** R1 and the first half of R2: which proposals wait for the node's verdict, and which fork halts. */
    method OnPropose(v: nat, p: Proposal) returns (slash: bool)
      modifies this
      ensures slash <==> v <= old(view) && v in old(seen) && old(seen)[v] != BlockHash(sha, p.header)
      ensures State() == Buffered(committee, sha, genesis, old(State()), v, p)
    {
      if v > view { return false; }
      if v in seen {
        if seen[v] == BlockHash(sha, p.header) { return false; }
        HaltVoter(Leader(committee, v));
        return true;
      }
      if v < view {
        if !NotarizedAt(proofs, v, BlockHash(sha, p.header)) { return false; }
      } else {
        if notarized.Some? || nullified { return false; }
        var ok := CheckParent(v, p.header.parent, p.parentView);
        if !ok { return false; }
      }
      seen, pending := seen[v := BlockHash(sha, p.header)], pending[v := p];
      return false;
    }

    /** The second half of R2, and the late finalization of an earlier view's block. */
    method OnProposalVerified(v: nat, block: Hash, valid: bool) returns (votes: bool)
      requires Confirms(sha, State(), v, block, valid) && v in proofs && proofs[v] == Notarized(block, true) ==>
                 Walk(chain, Kept(State(), v, block).blocks, block, {}) != Loops
      modifies this
      ensures votes <==> Votes(sha, genesis, old(State()), v, block, valid)
      ensures State() == Judged(sha, genesis, old(State()), v, block, valid)
    {
      if v !in pending {
        assert pending - {v} == pending;
        return false;
      }
      var p := pending[v];
      pending := pending - {v};
      if BlockHash(sha, p.header) != block || !valid { return false; }
      blocks := blocks[block := Placed(v, p.header)];
      assert State() == Kept(old(State()), v, block);
      if v != view {
        if v in proofs && proofs[v] == Notarized(block, true) { ConsensusFinalize(v, block); }
        return false;
      }
      if notarized.Some? || nullified { return false; }
      var ok := CheckParent(v, p.header.parent, p.parentView);
      if !ok { return false; }
      notarized := Some(block);
      return true;
    }

    /** The tally's bookkeeping for one admitted vote. */
    method AdmitVote(vote: Vote)
      modifies this
      ensures State() == Admitted(old(State()), vote)
    {
      if vote.voter in halted { return; }
      match vote
      case Notarize(v, block, k) =>
        if Equivocates(State(), v, block, k) {
          HaltVoter(k);
        } else {
          var tally := TallyAt(notarizes, v)[block := VotersFor(notarizes, v, block) + {k}];
          notarizes := notarizes[v := tally];
        }
      case Nullify(v, k) => nullifies := nullifies[v := Nullifiers(nullifies, v) + {k}];
    }

    method HaltVoter(k: nat)
      modifies this
      ensures State() == Purged(old(State()), k)
    {
      halted := halted + {k};
      notarizes := map v | v in notarizes :: map c | c in notarizes[v] :: notarizes[v][c] - {k};
      nullifies := map v | v in nullifies :: nullifies[v] - {k};
    }

    /** R6: after notarizing, nullify once the voters tallied against that block reach M. */
    method NullifyByContradiction(v: nat) returns (votes: bool)
      requires ValidCommittee(committee)
      modifies this
      ensures votes <==> && v == old(view) && !old(nullified) && old(notarized).Some?
                         && Weight(committee.Members(), Contradictors(old(State()), v, old(notarized).value))
                            >= committee.M()
      ensures State() == if votes then WithNullify(old(State())) else old(State())
    {
      if v != view || nullified || notarized.None? { return false; }
      var weight := WeightOf(committee, Contradictors(State(), v, notarized.value));
      if weight < committee.M() { return false; }
      nullified := true;
      return true;
    }

    /** R4: `digest` is what a notarize vote for this view and block signs. */
    method OnNotarization(valid: Verifier, v: nat, block: Hash, digest: Hash, cert: QuorumCertificate)
      requires ValidCommittee(committee)
      requires Certified(valid, committee.Members(), committee.L(), cert) ==> Walk(chain, blocks, block, {}) != Loops
      modifies this
      ensures var members := committee.Members();
              State() == if cert.message == digest && Certified(valid, members, committee.M(), cert)
                         then Taken(old(State()), v, block, Certified(valid, members, committee.L(), cert))
                         else old(State())
    {
      if cert.message != digest { return; }
      var m := Verify(valid, committee.advanceSet, cert);
      if m.Err? || (v in proofs && !NotarizedAt(proofs, v, block)) { return; }
      var l := Verify(valid, committee.finalizeSet, cert);
      StoreProof(v, block, l.Ok?);
      if l.Ok? { ConsensusFinalize(v, block); }
    }

    /** A new proof, or the upgrade of an M-notarization to an L-notarization. */
    method StoreProof(v: nat, block: Hash, large: bool)
      requires v in proofs ==> NotarizedAt(proofs, v, block)
      modifies this
      ensures State() == Store(old(State()), v, Notarized(block, large))
      ensures chain == old(chain) && blocks == old(blocks)
    {
      if v !in proofs {
        proofs := proofs[v := Notarized(block, large)];
        Enter(v + 1);
      } else if large && !proofs[v].large {
        proofs := proofs[v := Notarized(block, true)];
      }
    }

    /** R5. */
    method OnNullification(valid: Verifier, v: nat, digest: Hash, cert: QuorumCertificate)
      requires ValidCommittee(committee)
      modifies this
      ensures State() == if cert.message == digest && Certified(valid, committee.Members(), committee.M(), cert)
                         then Store(old(State()), v, Nullified) else old(State())
    {
      if cert.message != digest { return; }
      var m := Verify(valid, committee.advanceSet, cert);
      if m.Err? || v in proofs { return; }
      proofs := proofs[v := Nullified];
      Enter(v + 1);
    }

    method Prune(horizon: nat)
      modifies this
      ensures State() == Dropped(old(State()), horizon)
    {
      proofs := map v | v in proofs && v >= horizon :: proofs[v];
      notarizes := map v | v in notarizes && v >= horizon :: notarizes[v];
      nullifies := map v | v in nullifies && v >= horizon :: nullifies[v];
    }

    /** `consensus_finalize`. */
    method ConsensusFinalize(v: nat, block: Hash)
      requires Walk(chain, blocks, block, {}) != Loops
      modifies this
      ensures State() == Finalize(old(State()), v, block)
    {
      if tip.Some? && v <= tip.value { return; }
      var walked := Ancestry(block);
      if walked.Missing? { return; }
      WalkPlaced(chain, blocks, block, {});
      var complete := Extend(walked.path);
      if !complete { return; }
      tip := Some(v);
      Prune(SaturatingSub(v, VIEW_HORIZON));
    }

    /** The walk from a block back to the chain. */
    method Ancestry(block: Hash) returns (walked: Walked)
      requires Walk(chain, blocks, block, {}) != Loops
      ensures walked == Walk(chain, blocks, block, {})
    {
      var cursor, path := block, [];
      ghost var visited: set<Hash> := {};
      ThenNothing(Walk(chain, blocks, block, {}));
      while cursor !in chain.Values
        invariant Then(Walk(chain, blocks, cursor, visited), path) == Walk(chain, blocks, block, {})
        decreases |blocks.Keys - visited|
      {
        if cursor !in blocks { return Missing; }
        FewerLeft(blocks.Keys - (visited + {cursor}), blocks.Keys - visited);
        ThenOne(Walk(chain, blocks, blocks[cursor].header.parent, visited + {cursor}), cursor, path);
        visited, path, cursor := visited + {cursor}, [cursor] + path, blocks[cursor].header.parent;
      }
      assert [] + path == path;
      return Found(path);
    }

    /** The insertion loop: stops at a height another block holds. */
    method Extend(path: seq<Hash>) returns (complete: bool)
      requires AllPlaced(blocks, path)
      modifies this
      ensures var f := Fill(old(chain), old(staged), old(blocks), path);
              State() == old(State()).(chain := f.chain, staged := f.staged) && complete == f.complete
    {
      ghost var all := Fill(chain, staged, blocks, path);
      assert path[0..] == path;
      for i := 0 to |path|
        invariant blocks == old(blocks) && State() == old(State()).(chain := chain, staged := staged)
        invariant AllPlaced(blocks, path[i..]) && Fill(chain, staged, blocks, path[i..]) == all
      {
        var height := blocks[path[i]].header.height;
        assert path[i..][0] == path[i] && path[i..][1..] == path[i + 1..];
        if height in chain && chain[height] != path[i] { return false; }
        if height !in staged { chain, staged := chain[height := path[i]], staged + {height}; }
      }
      return true;
    }
  }

  lemma ThenNothing(walked: Walked)
    ensures Then(walked, []) == walked
  {
  }

  lemma ThenOne(walked: Walked, x: Hash, path: seq<Hash>)
    ensures Then(Then(walked, [x]), path) == Then(walked, [x] + path)
  {
  }

  // ---- what every step keeps -----------------------------------------------

  /** A replica's flags record exactly its votes in its current view, and it never voted ahead of its view. */
  ghost predicate RecordedBy(w: World, i: nat, r: Replica) {
    && (forall v | v in w.cast && v.voter == i :: v.view <= r.view)
    && (forall b :: Notarize(r.view, b, i) in w.cast <==> r.notarized == Some(b))
    && (Nullify(r.view, i) in w.cast <==> r.nullified)
  }

  ghost predicate Recorded(net: Net, w: World) {
    forall i | net.Honest(i) && i in w.replicas :: RecordedBy(w, i, w.replicas[i])
  }

  predicate SameSlot(a: Vote, b: Vote) { a.Notarize? && b.Notarize? && a.voter == b.voter && a.view == b.view }

  ghost predicate VoteOnce(w: World) {
    forall a, b | a in w.cast && b in w.cast && SameSlot(a, b) :: a.block == b.block
  }

  /** A stored proof is one the votes sent can make up. */
  ghost predicate Backed(net: Net, w: World, v: nat, proof: Proof) {
    match proof
    case Notarized(b, large) => MCert(net, w, v, b) && (large ==> LCert(net, w, v, b))
    case Nullified => NCert(net, w, v)
  }

  ghost predicate Sound(net: Net, w: World, r: Replica) {
    forall v | v in r.proofs :: Backed(net, w, v, r.proofs[v])
  }

  ghost predicate BlocksNamed(net: Net, blocks: map<Hash, Placed>) {
    forall b | b in blocks :: Names(net, b, blocks[b].header)
  }

  /** Waiting proposals carry proposed headers, and every kept block is kept under its own hash. */
  ghost predicate Stocked(net: Net, r: Replica) {
    (forall v | v in r.pending :: r.pending[v].header in net.headers) && BlocksNamed(net, r.blocks)
  }

  ghost predicate NotarizesSent(net: Net, w: World, v: nat, tally: map<Hash, set<nat>>) {
    forall c, k | c in tally && k in tally[c] :: Sent(net, w, Notarize(v, c, k))
  }

  ghost predicate NullifiesSent(net: Net, w: World, v: nat, voters: set<nat>) {
    forall k | k in voters :: Sent(net, w, Nullify(v, k))
  }

  /** Every tallied vote was sent. */
  ghost predicate TalliesSent(net: Net, w: World, r: Replica) {
    && (forall v | v in r.notarizes :: NotarizesSent(net, w, v, r.notarizes[v]))
    && (forall v | v in r.nullifies :: NullifiesSent(net, w, v, r.nullifies[v]))
  }

  ghost predicate InOrder(net: Net, w: World, r: Replica) {
    Sound(net, w, r) && Stocked(net, r) && TalliesSent(net, w, r)
  }

  ghost predicate AllInOrder(net: Net, w: World) {
    forall i | net.Honest(i) && i in w.replicas :: InOrder(net, w, w.replicas[i])
  }

  /** The locking rule, over certificates. */
  ghost predicate Justified(net: Net, w: World, view: nat, block: Hash) {
    || (ParentOf(net, block) == net.genesis && forall j | 0 <= j < view :: NCert(net, w, j))
    || (exists p: nat :: ParentAt(net, w, view, block, p))
  }

  ghost predicate ParentAt(net: Net, w: World, view: nat, block: Hash, p: nat) {
    p < view && MCert(net, w, p, ParentOf(net, block)) && forall j | p < j < view :: NCert(net, w, j)
  }

  /** Votes obey the locking rule, and none is for the genesis hash. */
  ghost predicate VotesJustified(net: Net, w: World) {
    forall v | v in w.cast && v.Notarize? :: Justified(net, w, v.view, v.block) && v.block != net.genesis
  }

  /** Member k can show a signed vote against block c in view v: a nullify or a notarize for another block. */
  predicate Against(net: Net, w: World, v: nat, c: Hash, k: nat) {
    k in net.byzantine || Nullify(v, k) in w.cast || exists vote | vote in w.cast :: Rival(vote, v, c, k)
  }

  predicate Rival(vote: Vote, v: nat, c: Hash, k: nat) {
    vote.Notarize? && vote.view == v && vote.voter == k && vote.block != c
  }

  /** An honest member that will never notarize c in view v. */
  ghost predicate Dissents(net: Net, w: World, v: nat, c: Hash, k: nat) {
    && k !in net.byzantine
    && ((exists vote | vote in w.cast :: Rival(vote, v, c, k))
        || (Nullify(v, k) in w.cast && forall b :: Notarize(v, b, k) !in w.cast))
  }

  ghost function Dissent(net: Net, w: World, v: nat, c: Hash): set<nat> {
    set k | 0 <= k < |net.Members()| && Dissents(net, w, v, c, k)
  }

  /** Whoever nullified after notarizing c did so only once c could no longer be finalized. */
  ghost predicate Overruled(net: Net, w: World, v: nat, c: Hash) {
    Weight(net.Members(), Dissent(net, w, v, c)) >= net.committee.byzantine + 1
  }

  ghost predicate Reversals(net: Net, w: World) {
    forall a | a in w.cast && a.Notarize? && Nullify(a.view, a.voter) in w.cast :: Overruled(net, w, a.view, a.block)
  }

  ghost predicate HonestCasts(net: Net, w: World) {
    forall v | v in w.cast :: net.Honest(v.voter)
  }

  ghost predicate Inv(net: Net, w: World) {
    && Total(net, w) && HonestCasts(net, w) && Recorded(net, w) && VoteOnce(w)
    && AllInOrder(net, w) && VotesJustified(net, w) && Reversals(net, w)
  }

  // ---- certificates only accumulate ----------------------------------------

  lemma {:induction false} MCertGrows(net: Net, w: World, w': World, v: nat, b: Hash)
    requires w.cast <= w'.cast && MCert(net, w, v, b)
    ensures MCert(net, w', v, b)
  {
    var signers :| NotarizeQuorum(net, w, v, b, signers, net.committee.M());
    assert NotarizeQuorum(net, w', v, b, signers, net.committee.M());
  }

  lemma {:induction false} LCertGrows(net: Net, w: World, w': World, v: nat, b: Hash)
    requires w.cast <= w'.cast && LCert(net, w, v, b)
    ensures LCert(net, w', v, b)
  {
    var signers :| NotarizeQuorum(net, w, v, b, signers, net.committee.L());
    assert NotarizeQuorum(net, w', v, b, signers, net.committee.L());
  }

  lemma {:induction false} NCertGrows(net: Net, w: World, w': World, v: nat)
    requires w.cast <= w'.cast && NCert(net, w, v)
    ensures NCert(net, w', v)
  {
    var signers :| NullifyQuorum(net, w, v, signers);
    assert NullifyQuorum(net, w', v, signers);
  }

  lemma {:induction false} JustifiedGrows(net: Net, w: World, w': World, v: nat, b: Hash)
    requires w.cast <= w'.cast && Justified(net, w, v, b)
    ensures Justified(net, w', v, b)
  {
    forall j | NCert(net, w, j) ensures NCert(net, w', j) { NCertGrows(net, w, w', j); }
    if p: nat :| ParentAt(net, w, v, b, p) {
      MCertGrows(net, w, w', p, ParentOf(net, b));
      assert ParentAt(net, w', v, b, p);
    }
  }

  lemma {:induction false} BackedGrows(net: Net, w: World, w': World, v: nat, proof: Proof)
    requires w.cast <= w'.cast && Backed(net, w, v, proof)
    ensures Backed(net, w', v, proof)
  {
    match proof
    case Notarized(b, large) =>
      MCertGrows(net, w, w', v, b);
      if large { LCertGrows(net, w, w', v, b); }
    case Nullified => NCertGrows(net, w, w', v);
  }

  lemma {:induction false} InOrderGrows(net: Net, w: World, w': World, r: Replica)
    requires w.cast <= w'.cast && InOrder(net, w, r)
    ensures InOrder(net, w', r)
  {
    forall v | v in r.proofs ensures Backed(net, w', v, r.proofs[v]) { BackedGrows(net, w, w', v, r.proofs[v]); }
  }

  // ---- one step ------------------------------------------------------------

  ghost predicate SubMap<T>(a: map<nat, T>, b: map<nat, T>) { forall v | v in a :: v in b && a[v] == b[v] }

  lemma DroppedFrame(r: Replica, horizon: nat)
    ensures var d := Dropped(r, horizon);
            && d == r.(proofs := d.proofs, notarizes := d.notarizes, nullifies := d.nullifies)
            && SubMap(d.proofs, r.proofs) && SubMap(d.notarizes, r.notarizes) && SubMap(d.nullifies, r.nullifies)
  {
  }

  /** Finalizing changes the chain and forgets old views; nothing else. */
  lemma {:induction false} FinalizeFrame(r: Replica, view: nat, block: Hash)
    ensures var f := Finalize(r, view, block);
            && f == r.(proofs := f.proofs, notarizes := f.notarizes, nullifies := f.nullifies, tip := f.tip,
                       chain := f.chain, staged := f.staged)
            && SubMap(f.proofs, r.proofs) && SubMap(f.notarizes, r.notarizes) && SubMap(f.nullifies, r.nullifies)
  {
    var walked := Walk(r.chain, r.blocks, block, {});
    if walked.Found? {
      WalkPlaced(r.chain, r.blocks, block, {});
      var f := Fill(r.chain, r.staged, r.blocks, walked.path);
      DroppedFrame(r.(chain := f.chain, staged := f.staged, tip := Some(view)), SaturatingSub(view, VIEW_HORIZON));
    }
  }

  lemma {:induction false} LessInOrder(net: Net, w: World, r: Replica, f: Replica)
    requires InOrder(net, w, r) && f.pending == r.pending && f.blocks == r.blocks
    requires SubMap(f.proofs, r.proofs) && SubMap(f.notarizes, r.notarizes) && SubMap(f.nullifies, r.nullifies)
    ensures InOrder(net, w, f)
  {
    forall v | v in f.proofs ensures Backed(net, w, v, f.proofs[v]) { assert Backed(net, w, v, r.proofs[v]); }
  }

  lemma {:induction false} FinalizeInOrder(net: Net, w: World, r: Replica, view: nat, block: Hash)
    requires InOrder(net, w, r)
    ensures InOrder(net, w, Finalize(r, view, block))
  {
    FinalizeFrame(r, view, block);
    LessInOrder(net, w, r, Finalize(r, view, block));
  }

  /** What a replica's votes depend on: view and flags. */
  predicate SameFlags(a: Replica, b: Replica) {
    a.view == b.view && a.notarized == b.notarized && a.nullified == b.nullified
  }

  /** Only the acting replica changes, and the only new vote is its own, for its current view. */
  lemma {:induction false} StepFrame(net: Net, w: World, a: Action)
    requires Enabled(net, w, a)
    ensures var w', r := Apply(net, w, a), w.replicas[a.i];
            && w.cast <= w'.cast
            && (forall v | v in w'.cast && v !in w.cast :: v.voter == a.i && v.view == r.view)
            && w'.replicas.Keys == w.replicas.Keys
            && (forall i | i in w.replicas && i != a.i :: w'.replicas[i] == w.replicas[i])
  {
  }

  lemma OthersRecorded(w: World, w': World, i: nat, r: Replica)
    requires RecordedBy(w, i, r) && (forall v: Vote | v.voter == i :: v in w.cast <==> v in w'.cast)
    ensures RecordedBy(w', i, r)
  {
  }

  lemma EnterRecorded(w: World, i: nat, r: Replica, next: nat)
    requires RecordedBy(w, i, r)
    ensures RecordedBy(w, i, EnterView(r, next))
  {
  }

  lemma FlagsRecorded(w: World, i: nat, r: Replica, r': Replica)
    requires RecordedBy(w, i, r) && SameFlags(r', r)
    ensures RecordedBy(w, i, r')
  {
  }

  lemma {:induction false} StoreRecorded(w: World, i: nat, r: Replica, view: nat, proof: Proof)
    requires RecordedBy(w, i, r)
    ensures RecordedBy(w, i, Store(r, view, proof))
  {
    var kept := r.(proofs := r.proofs[view := proof]);
    FlagsRecorded(w, i, r, kept);
    EnterRecorded(w, i, kept, view + 1);
  }

  lemma {:induction false} TakenRecorded(w: World, i: nat, r: Replica, view: nat, block: Hash, large: bool)
    requires RecordedBy(w, i, r)
    ensures RecordedBy(w, i, Taken(r, view, block, large))
  {
    var stored := Store(r, view, Notarized(block, large));
    StoreRecorded(w, i, r, view, Notarized(block, large));
    FinalizeFrame(stored, view, block);
    FlagsRecorded(w, i, stored, Finalize(stored, view, block));
  }

  lemma {:induction false} JudgedFlags(sha: Sha, genesis: Hash, r: Replica, view: nat, block: Hash, valid: bool)
    ensures var r' := Judged(sha, genesis, r, view, block, valid);
            if Votes(sha, genesis, r, view, block, valid)
            then r'.view == r.view && r'.notarized == Some(block) && r'.nullified == r.nullified
            else SameFlags(r', r)
  {
    if Confirms(sha, r, view, block, valid) { FinalizeFrame(Kept(r, view, block), view, block); }
  }

  lemma VotedRecorded(w: World, i: nat, r: Replica, r': Replica, block: Hash)
    requires RecordedBy(w, i, r) && r.notarized == None
    requires r'.view == r.view && r'.notarized == Some(block) && r'.nullified == r.nullified
    ensures RecordedBy(World(w.replicas, w.cast + {Notarize(r.view, block, i)}), i, r')
  {
  }

  lemma NullifiedRecorded(w: World, i: nat, r: Replica)
    requires RecordedBy(w, i, r)
    ensures RecordedBy(World(w.replicas, w.cast + {Nullify(r.view, i)}), i, WithNullify(r))
  {
  }

  lemma {:induction false} ActedRecorded(net: Net, w: World, a: Action)
    requires Enabled(net, w, a) && RecordedBy(w, a.i, w.replicas[a.i])
    ensures RecordedBy(Apply(net, w, a), a.i, Acted(net, w.replicas[a.i], a))
  {
    var r, w' := w.replicas[a.i], Apply(net, w, a);
    match a
    case Verdict(i, view, block, valid) =>
      JudgedFlags(net.sha, net.genesis, r, view, block, valid);
      if Votes(net.sha, net.genesis, r, view, block, valid) { VotedRecorded(w, i, r, Acted(net, r, a), block); }
    case TakeNotarization(i, view, block, signers) =>
      TakenRecorded(w, i, r, view, block, Weight(net.Members(), signers) >= net.committee.L());
    case TakeNullification(i, view, _) => StoreRecorded(w, i, r, view, Nullified);
    case TimeOut(i) => NullifiedRecorded(w, i, r);
    case Contradict(i) => NullifiedRecorded(w, i, r);
    case Admit(i, vote) => AdmittedFrame(r, vote);
    case Propose(_, _, _) =>
    case Expel(_, _) =>
  }

  lemma {:induction false} StepRecorded(net: Net, w: World, a: Action)
    requires Enabled(net, w, a) && Recorded(net, w)
    ensures Recorded(net, Apply(net, w, a))
  {
    var w' := Apply(net, w, a);
    StepFrame(net, w, a);
    forall i | net.Honest(i) && i in w'.replicas ensures RecordedBy(w', i, w'.replicas[i]) {
      if i == a.i { ActedRecorded(net, w, a); } else { OthersRecorded(w, w', i, w.replicas[i]); }
    }
  }

  lemma {:induction false} StepVoteOnce(net: Net, w: World, a: Action)
    requires Enabled(net, w, a) && Recorded(net, w) && VoteOnce(w)
    ensures VoteOnce(Apply(net, w, a))
  {
    assert RecordedBy(w, a.i, w.replicas[a.i]);
  }

  lemma StoreFrame(r: Replica, view: nat, proof: Proof)
    ensures var s := Store(r, view, proof);
            && s == r.(view := s.view, notarized := s.notarized, nullified := s.nullified, proofs := s.proofs)
            && (s.proofs == r.proofs || s.proofs == r.proofs[view := proof])
  {
  }

  lemma {:induction false} StoreInOrder(net: Net, w: World, r: Replica, view: nat, proof: Proof)
    requires InOrder(net, w, r) && Backed(net, w, view, proof)
    ensures InOrder(net, w, Store(r, view, proof))
  {
    var s := Store(r, view, proof);
    StoreFrame(r, view, proof);
    forall v | v in s.proofs ensures Backed(net, w, v, s.proofs[v]) {
      if v != view || s.proofs == r.proofs { assert Backed(net, w, v, r.proofs[v]); }
    }
  }

  lemma {:induction false} JudgedInOrder(net: Net, w: World, r: Replica, view: nat, block: Hash, valid: bool)
    requires InOrder(net, w, r)
    ensures InOrder(net, w, Judged(net.sha, net.genesis, r, view, block, valid))
  {
    if Confirms(net.sha, r, view, block, valid) {
      var kept := Kept(r, view, block);
      assert Names(net, block, r.pending[view].header);
      assert InOrder(net, w, kept);
      FinalizeInOrder(net, w, kept, view, block);
    }
  }

  lemma {:induction false} PurgedSent(net: Net, w: World, r: Replica, k: nat)
    requires TalliesSent(net, w, r)
    ensures TalliesSent(net, w, Purged(r, k))
  {
    var s := Purged(r, k);
    forall v | v in s.notarizes ensures NotarizesSent(net, w, v, s.notarizes[v]) {
      assert NotarizesSent(net, w, v, r.notarizes[v]);
    }
    forall v | v in s.nullifies ensures NullifiesSent(net, w, v, s.nullifies[v]) {
      assert NullifiesSent(net, w, v, r.nullifies[v]);
    }
  }

  lemma {:induction false} TallySent(net: Net, w: World, r: Replica, v: nat, c: Hash, k: nat)
    requires TalliesSent(net, w, r) && Sent(net, w, Notarize(v, c, k))
    ensures NotarizesSent(net, w, v, TallyAt(r.notarizes, v)[c := VotersFor(r.notarizes, v, c) + {k}])
  {
    if v in r.notarizes { assert NotarizesSent(net, w, v, r.notarizes[v]); }
  }

  lemma {:induction false} NotarizeTallied(net: Net, w: World, r: Replica, v: nat, c: Hash, k: nat)
    requires TalliesSent(net, w, r) && Sent(net, w, Notarize(v, c, k))
    ensures var tally := TallyAt(r.notarizes, v)[c := VotersFor(r.notarizes, v, c) + {k}];
            TalliesSent(net, w, r.(notarizes := r.notarizes[v := tally]))
  {
    TallySent(net, w, r, v, c, k);
  }

  lemma {:induction false} NullifyTallied(net: Net, w: World, r: Replica, v: nat, k: nat)
    requires TalliesSent(net, w, r) && Sent(net, w, Nullify(v, k))
    ensures TalliesSent(net, w, r.(nullifies := r.nullifies[v := Nullifiers(r.nullifies, v) + {k}]))
  {
    if v in r.nullifies { assert NullifiesSent(net, w, v, r.nullifies[v]); }
  }

  lemma {:induction false} AdmittedInOrder(net: Net, w: World, r: Replica, vote: Vote)
    requires InOrder(net, w, r) && Sent(net, w, vote)
    ensures InOrder(net, w, Admitted(r, vote))
  {
    AdmittedFrame(r, vote);
    match vote
    case Notarize(v, c, k) =>
      if Equivocates(r, v, c, k) { PurgedSent(net, w, r, k); } else { NotarizeTallied(net, w, r, v, c, k); }
    case Nullify(v, k) => NullifyTallied(net, w, r, v, k);
  }

  /** Only tallies and halted voters differ. */
  predicate SameButTallies(s: Replica, r: Replica) {
    s == r.(notarizes := s.notarizes, nullifies := s.nullifies, halted := s.halted)
  }

  lemma {:induction false} PurgedInOrder(net: Net, w: World, r: Replica, k: nat)
    requires InOrder(net, w, r)
    ensures InOrder(net, w, Purged(r, k))
  {
    PurgedSent(net, w, r, k);
    assert SameButTallies(Purged(r, k), r);
  }

  lemma {:induction false} BufferedInOrder(net: Net, w: World, r: Replica, view: nat, p: Proposal)
    requires InOrder(net, w, r) && p.header in net.headers
    ensures InOrder(net, w, Buffered(net.committee, net.sha, net.genesis, r, view, p))
  {
    PurgedInOrder(net, w, r, Leader(net.committee, view));
    WaitingInOrder(net, w, r, view, p, BlockHash(net.sha, p.header));
  }

  lemma {:induction false} WaitingInOrder(net: Net, w: World, r: Replica, view: nat, p: Proposal, block: Hash)
    requires InOrder(net, w, r) && p.header in net.headers
    ensures InOrder(net, w, r.(seen := r.seen[view := block], pending := r.pending[view := p]))
  {
    PendingInOrder(net, w, r, r.(seen := r.seen[view := block], pending := r.pending[view := p]));
  }

  lemma PendingInOrder(net: Net, w: World, r: Replica, f: Replica)
    requires InOrder(net, w, r) && f == r.(seen := f.seen, pending := f.pending)
    requires forall v | v in f.pending :: f.pending[v].header in net.headers
    ensures InOrder(net, w, f)
  {
  }

  lemma {:induction false} AdmittedFrame(r: Replica, vote: Vote)
    ensures SameButTallies(Admitted(r, vote), r)
  {
    assert SameButTallies(Purged(r, vote.voter), r);
  }

  predicate SameTip(a: Replica, b: Replica) { a.chain == b.chain && a.staged == b.staged && a.tip == b.tip }

  lemma BufferedTip(c: Committee, sha: Sha, genesis: Hash, r: Replica, view: nat, p: Proposal)
    ensures SameTip(Buffered(c, sha, genesis, r, view, p), r)
  {
  }

  /** Only certificates and verdicts reach the chain. */
  lemma {:induction false} QuietTip(net: Net, r: Replica, a: Action)
    requires !a.TakeNotarization? && !a.Verdict?
    ensures SameTip(Acted(net, r, a), r)
  {
    match a
    case Propose(_, view, p) => BufferedTip(net.committee, net.sha, net.genesis, r, view, p);
    case TakeNullification(_, view, _) => StoreFrame(r, view, Nullified);
    case Admit(_, vote) => AdmittedFrame(r, vote);
    case _ =>
  }

  /** The verdict comes after its view was left with an L-notarization of the block. */
  predicate Late(sha: Sha, r: Replica, view: nat, block: Hash, valid: bool) {
    Confirms(sha, r, view, block, valid) && view != r.view && view in r.proofs
    && r.proofs[view] == Notarized(block, true)
  }

  lemma JudgedLate(sha: Sha, genesis: Hash, r: Replica, view: nat, block: Hash, valid: bool)
    requires Late(sha, r, view, block, valid)
    ensures Judged(sha, genesis, r, view, block, valid) == Finalize(Kept(r, view, block), view, block)
  {
  }

  lemma JudgedInTime(sha: Sha, genesis: Hash, r: Replica, view: nat, block: Hash, valid: bool)
    requires !Late(sha, r, view, block, valid)
    ensures SameTip(Judged(sha, genesis, r, view, block, valid), r)
  {
  }

  lemma {:induction false} ActedInOrder(net: Net, w: World, a: Action)
    requires ValidNet(net) && Enabled(net, w, a) && InOrder(net, w, w.replicas[a.i])
    ensures InOrder(net, w, Acted(net, w.replicas[a.i], a))
  {
    var r := w.replicas[a.i];
    match a
    case Admit(_, vote) => AdmittedInOrder(net, w, r, vote);
    case Propose(_, view, proposal) => BufferedInOrder(net, w, r, view, proposal);
    case Expel(_, k) => PurgedInOrder(net, w, r, k);
    case Verdict(_, view, block, valid) => JudgedInOrder(net, w, r, view, block, valid);
    case TakeNotarization(_, view, block, signers) =>
      var large := Weight(net.Members(), signers) >= net.committee.L();
      assert MCert(net, w, view, block);
      if large {
        assert NotarizeQuorum(net, w, view, block, signers, net.committee.L());
        assert LCert(net, w, view, block);
      }
      StoreInOrder(net, w, r, view, Notarized(block, large));
      FinalizeInOrder(net, w, Store(r, view, Notarized(block, large)), view, block);
    case TakeNullification(_, view, signers) =>
      assert NCert(net, w, view);
      StoreInOrder(net, w, r, view, Nullified);
    case _ =>
  }

  lemma {:induction false} StepInOrder(net: Net, w: World, a: Action)
    requires ValidNet(net) && Enabled(net, w, a) && AllInOrder(net, w)
    ensures AllInOrder(net, Apply(net, w, a))
  {
    var w' := Apply(net, w, a);
    StepFrame(net, w, a);
    ActedInOrder(net, w, a);
    forall i | net.Honest(i) && i in w'.replicas ensures InOrder(net, w', w'.replicas[i]) {
      InOrderGrows(net, w, w', w'.replicas[i]);
    }
  }

  /** The voting rule turns stored proofs into certificates. */
  lemma {:induction false} VoteJustified(net: Net, w: World, r: Replica, view: nat, block: Hash)
    requires ValidNet(net) && InOrder(net, w, r) && Votes(net.sha, net.genesis, r, view, block, true)
    ensures Justified(net, w, view, block) && block != net.genesis
  {
    var p := r.pending[view];
    assert Names(net, block, p.header);
    NamedOnce(net, block, p.header);
    forall j | NullAt(r.proofs, j) ensures NCert(net, w, j) { assert Backed(net, w, j, r.proofs[j]); }
    if p.parentView.Some? {
      assert Backed(net, w, p.parentView.value, r.proofs[p.parentView.value]);
      assert ParentAt(net, w, view, block, p.parentView.value);
    }
  }

  lemma {:induction false} StepJustified(net: Net, w: World, a: Action)
    requires ValidNet(net) && Enabled(net, w, a) && AllInOrder(net, w) && VotesJustified(net, w)
    ensures VotesJustified(net, Apply(net, w, a))
  {
    var w', r := Apply(net, w, a), w.replicas[a.i];
    StepFrame(net, w, a);
    if a.Verdict? && Votes(net.sha, net.genesis, r, a.view, a.block, a.valid) {
      VoteJustified(net, w, r, a.view, a.block);
    }
    forall v | v in w'.cast && v.Notarize? ensures Justified(net, w', v.view, v.block) && v.block != net.genesis {
      JustifiedGrows(net, w, w', v.view, v.block);
    }
  }

  // ---- nullifying after notarizing -----------------------------------------

  /** Dissent never shrinks: nobody notarizes after nullifying, or notarizes twice. */
  lemma {:induction false} DissentGrows(net: Net, w: World, a: Action, v: nat, c: Hash)
    requires Enabled(net, w, a) && Recorded(net, w) && Overruled(net, w, v, c)
    ensures Overruled(net, Apply(net, w, a), v, c)
  {
    var w' := Apply(net, w, a);
    StepFrame(net, w, a);
    assert RecordedBy(w, a.i, w.replicas[a.i]);
    forall k | k in Dissent(net, w, v, c) ensures k in Dissent(net, w', v, c) {
      assert Dissents(net, w, v, c, k);
      assert Dissents(net, w', v, c, k);
    }
    WeightMonotone(net.Members(), Dissent(net, w, v, c), Dissent(net, w', v, c));
  }

  /** Members of `s` outside the Byzantine set weigh at least Weight(s) - B. */
  lemma {:induction false} HonestWeight(net: Net, s: set<nat>)
    requires ValidNet(net)
    ensures Weight(net.Members(), s - net.byzantine) >= Weight(net.Members(), s) - net.committee.byzantine
  {
    WeightInclusionExclusion(net.Members(), s - net.byzantine, net.byzantine);
    WeightMonotone(net.Members(), s, (s - net.byzantine) + net.byzantine);
  }

  lemma {:induction false} HonestMember(net: Net, s: set<nat>) returns (i: nat)
    requires ValidNet(net) && Weight(net.Members(), s) > net.committee.byzantine
    ensures i in s && net.Honest(i)
  {
    HonestWeight(net, s);
    i := PositiveWeightMember(net.Members(), s - net.byzantine);
  }

  /** M-weight against c leaves it dissenters heavier than B, unless someone already reversed on c. */
  lemma {:induction false} ContradictionOverrules(net: Net, w: World, v: nat, c: Hash, against: set<nat>)
    requires ValidNet(net) && HonestCasts(net, w) && VoteOnce(w) && Reversals(net, w)
    requires forall k | k in against :: k < |net.Members()| && Against(net, w, v, c, k)
    requires Weight(net.Members(), against) >= net.committee.M()
    ensures Overruled(net, w, v, c)
  {
    if k :| k in against && Notarize(v, c, k) in w.cast && Nullify(v, k) in w.cast {
      assert Overruled(net, w, v, c);
    } else {
      forall k | k in against - net.byzantine ensures k in Dissent(net, w, v, c) {
        AgainstDissents(net, w, v, c, k);
      }
      HonestWeight(net, against);
      WeightMonotone(net.Members(), against - net.byzantine, Dissent(net, w, v, c));
    }
  }

  lemma {:induction false} AgainstDissents(net: Net, w: World, v: nat, c: Hash, k: nat)
    requires k < |net.Members()| && k !in net.byzantine && Against(net, w, v, c, k)
    requires !(Notarize(v, c, k) in w.cast && Nullify(v, k) in w.cast)
    ensures Dissents(net, w, v, c, k)
  {
    if Nullify(v, k) in w.cast {
      if b :| Notarize(v, b, k) in w.cast { assert Rival(Notarize(v, b, k), v, c, k); }
    }
  }

  /** Whoever is tallied against the block can be shown to have voted against it. */
  lemma {:induction false} ContradictorsAgainst(net: Net, w: World, r: Replica, v: nat, c: Hash, k: nat)
    requires HonestCasts(net, w) && TalliesSent(net, w, r) && k in Contradictors(r, v, c)
    ensures k < |net.Members()| && Against(net, w, v, c, k)
  {
    if k in Nullifiers(r.nullifies, v) {
      assert NullifiesSent(net, w, v, r.nullifies[v]);
      assert Sent(net, w, Nullify(v, k));
    } else {
      var tally := TallyAt(r.notarizes, v);
      var b :| b in tally && b != c && k in tally[b];
      assert NotarizesSent(net, w, v, r.notarizes[v]);
      assert Sent(net, w, Notarize(v, b, k)) && Rival(Notarize(v, b, k), v, c, k);
    }
  }

  lemma {:induction false} StepReversals(net: Net, w: World, a: Action)
    requires ValidNet(net) && Enabled(net, w, a) && AllInOrder(net, w)
    requires HonestCasts(net, w) && Recorded(net, w) && VoteOnce(w) && Reversals(net, w)
    ensures Reversals(net, Apply(net, w, a))
  {
    var w', r := Apply(net, w, a), w.replicas[a.i];
    StepFrame(net, w, a);
    assert RecordedBy(w, a.i, r) && InOrder(net, w, r);
    forall x | x in w'.cast && x.Notarize? && Nullify(x.view, x.voter) in w'.cast
      ensures Overruled(net, w', x.view, x.block)
    {
      if x in w.cast && Nullify(x.view, x.voter) in w.cast {
        assert Overruled(net, w, x.view, x.block);
      } else {
        assert a.Contradict? && x.voter == a.i && r.notarized == Some(x.block);
        var against := Contradictors(r, x.view, x.block);
        forall k | k in against ensures k < |net.Members()| && Against(net, w, x.view, x.block, k) {
          ContradictorsAgainst(net, w, r, x.view, x.block, k);
        }
        ContradictionOverrules(net, w, x.view, x.block, against);
      }
      DissentGrows(net, w, a, x.view, x.block);
    }
  }

  /** Every step keeps every invariant. */
  lemma {:induction false} StepInv(net: Net, w: World, a: Action)
    requires ValidNet(net) && Inv(net, w) && Enabled(net, w, a)
    ensures Inv(net, Apply(net, w, a))
  {
    StepFrame(net, w, a);
    StepRecorded(net, w, a);
    StepVoteOnce(net, w, a);
    StepInOrder(net, w, a);
    StepJustified(net, w, a);
    StepReversals(net, w, a);
  }

  // ---- safety within a view ------------------------------------------------

  /** A view with an L-notarized block has no M-notarization of another block ... */
  lemma {:induction false} OneBlockPerView(net: Net, w: World, v: nat, c: Hash, c': Hash)
    requires ValidNet(net) && Inv(net, w) && LCert(net, w, v, c) && MCert(net, w, v, c')
    ensures c == c'
  {
    var l :| NotarizeQuorum(net, w, v, c, l, net.committee.L());
    var m :| NotarizeQuorum(net, w, v, c', m, net.committee.M());
    AdvanceMeetsFinalize(net.committee, m, l);
    var i := HonestMember(net, m * l);
    assert Sent(net, w, Notarize(v, c, i)) && Sent(net, w, Notarize(v, c', i));
    assert SameSlot(Notarize(v, c, i), Notarize(v, c', i));
  }

  lemma {:induction false} SignersDoNotDissent(net: Net, w: World, v: nat, c: Hash, signers: set<nat>)
    requires VoteOnce(w) && forall i | i in signers :: Sent(net, w, Notarize(v, c, i))
    ensures signers !! Dissent(net, w, v, c)
  {
    forall k | k in signers ensures k !in Dissent(net, w, v, c) {
      if k !in net.byzantine {
        assert Sent(net, w, Notarize(v, c, k));
        assert forall vote | vote in w.cast && Rival(vote, v, c, k) :: SameSlot(vote, Notarize(v, c, k));
      }
    }
  }

  /** ... and no nullification. */
  lemma {:induction false} FinalizedIsNotNullified(net: Net, w: World, v: nat, c: Hash)
    requires ValidNet(net) && Inv(net, w) && LCert(net, w, v, c)
    ensures !NCert(net, w, v)
  {
    if NCert(net, w, v) {
      var l :| NotarizeQuorum(net, w, v, c, l, net.committee.L());
      var n :| NullifyQuorum(net, w, v, n);
      AdvanceMeetsFinalize(net.committee, n, l);
      var i := HonestMember(net, n * l);
      assert Sent(net, w, Notarize(v, c, i)) && Sent(net, w, Nullify(v, i));
      assert Overruled(net, w, v, c);
      SignersDoNotDissent(net, w, v, c, l);
      DisjointWeights(net.Members(), l, Dissent(net, w, v, c));
    }
  }

  // ---- safety across views -------------------------------------------------

  /** The n-th ancestor. */
  ghost function Up(net: Net, b: Hash, n: nat): Hash
    decreases n
  {
    if n == 0 then b else Up(net, ParentOf(net, b), n - 1)
  }

  /** Some honest member notarized the block. */
  ghost predicate Voted(w: World, b: Hash) { exists v | v in w.cast :: v.Notarize? && v.block == b }

  /** c is the n-th ancestor of b, through blocks that honest members notarized. */
  ghost predicate Path(net: Net, w: World, b: Hash, c: Hash, n: nat) {
    Up(net, b, n) == c && forall m | 0 <= m < n :: Voted(w, Up(net, b, m))
  }

  lemma {:induction false} PathStep(net: Net, w: World, b: Hash, c: Hash, n: nat)
    requires Voted(w, b) && Path(net, w, ParentOf(net, b), c, n)
    ensures Path(net, w, b, c, n + 1)
  {
    forall m | 0 <= m < n + 1 ensures Voted(w, Up(net, b, m)) {
      if m > 0 { assert Up(net, b, m) == Up(net, ParentOf(net, b), m - 1); }
    }
  }

  lemma {:induction false} MCertVoter(net: Net, w: World, v: nat, b: Hash) returns (i: nat)
    requires ValidNet(net) && MCert(net, w, v, b)
    ensures Notarize(v, b, i) in w.cast && Voted(w, b)
  {
    var m :| NotarizeQuorum(net, w, v, b, m, net.committee.M());
    i := HonestMember(net, m);
    assert Sent(net, w, Notarize(v, b, i));
    assert Notarize(v, b, i).block == b;
  }

  /** Once c is L-notarized in view v, every block M-notarized in a later view descends from c. */
  lemma {:induction false} LaterBlocksDescend(net: Net, w: World, v: nat, c: Hash, v': nat, b: Hash) returns (n: nat)
    requires ValidNet(net) && Inv(net, w)
    requires LCert(net, w, v, c) && MCert(net, w, v', b) && v < v'
    ensures Path(net, w, b, c, n)
    decreases v'
  {
    var i := MCertVoter(net, w, v', b);
    assert Justified(net, w, v', b);
    FinalizedIsNotNullified(net, w, v, c);
    var p: nat :| ParentAt(net, w, v', b, p);
    assert p >= v;
    if p == v {
      OneBlockPerView(net, w, v, c, ParentOf(net, b));
      n := 0;
    } else {
      n := LaterBlocksDescend(net, w, v, c, p, ParentOf(net, b));
    }
    PathStep(net, w, b, c, n);
    n := n + 1;
  }

  lemma {:induction false} LIsM(net: Net, w: World, v: nat, c: Hash)
    requires ValidNet(net) && LCert(net, w, v, c)
    ensures MCert(net, w, v, c)
  {
    var l :| NotarizeQuorum(net, w, v, c, l, net.committee.L());
    assert NotarizeQuorum(net, w, v, c, l, net.committee.M());
  }

  ghost predicate Descends(net: Net, w: World, b: Hash, c: Hash) { exists n: nat :: Path(net, w, b, c, n) }

  /** Two L-notarized blocks lie on one chain. */
  lemma {:induction false} FinalizedComparable(net: Net, w: World, v: nat, c: Hash, v': nat, c': Hash)
    requires ValidNet(net) && Inv(net, w) && LCert(net, w, v, c) && LCert(net, w, v', c')
    ensures Descends(net, w, c, c') || Descends(net, w, c', c)
  {
    LIsM(net, w, v, c);
    LIsM(net, w, v', c');
    if v < v' {
      var n := LaterBlocksDescend(net, w, v, c, v', c');
    } else if v' < v {
      var n := LaterBlocksDescend(net, w, v', c', v, c);
    } else {
      OneBlockPerView(net, w, v, c, c');
      assert Path(net, w, c, c', 0);
    }
  }

  // ---- whole runs ----------------------------------------------------------

  function Start(net: Net): World {
    World(map i: nat | 0 <= i < |net.Members()| && i !in net.byzantine :: NewReplica(net.genesis), {})
  }

  /** Every action of the run is one the protocol allows at that point. */
  ghost predicate Run(net: Net, actions: seq<Action>) {
    actions == [] ||
    (var init := actions[..|actions| - 1];
     Run(net, init) && Enabled(net, After(net, init), actions[|actions| - 1]))
  }

  ghost function After(net: Net, actions: seq<Action>): World {
    if actions == [] then Start(net)
    else
      var w := After(net, actions[..|actions| - 1]);
      if Enabled(net, w, actions[|actions| - 1]) then Apply(net, w, actions[|actions| - 1]) else w
  }

  lemma {:induction false} RunInv(net: Net, actions: seq<Action>)
    requires ValidNet(net) && Run(net, actions)
    ensures Inv(net, After(net, actions))
  {
    if actions != [] {
      RunInv(net, actions[..|actions| - 1]);
      StepInv(net, After(net, actions[..|actions| - 1]), actions[|actions| - 1]);
    }
  }

  /** Over every run, any two L-notarized blocks lie on one chain. */
  lemma {:induction false} Agreement(net: Net, actions: seq<Action>, v: nat, b: Hash, v': nat, c: Hash)
    requires ValidNet(net) && Run(net, actions)
    requires LCert(net, After(net, actions), v, b) && LCert(net, After(net, actions), v', c)
    ensures Descends(net, After(net, actions), b, c) || Descends(net, After(net, actions), c, b)
  {
    RunInv(net, actions);
    FinalizedComparable(net, After(net, actions), v, b, v', c);
  }

  /** Mutual exclusion over every run: a view with an L-notarized block never has a nullification or an
      M-notarization of another block. */
  lemma {:induction false} MutualExclusion(net: Net, actions: seq<Action>, v: nat, c: Hash, c': Hash)
    requires ValidNet(net) && Run(net, actions) && LCert(net, After(net, actions), v, c)
    ensures !NCert(net, After(net, actions), v)
    ensures MCert(net, After(net, actions), v, c') ==> c' == c
  {
    RunInv(net, actions);
    FinalizedIsNotNullified(net, After(net, actions), v, c);
    if MCert(net, After(net, actions), v, c') { OneBlockPerView(net, After(net, actions), v, c, c'); }
  }
}

/** Epoch rotation: what `activate_epoch` keeps, clears and refuses, and what a rotated replica finalizes. */
module MinimmitEpoch {
  import opened Bytes
  import opened Hashing
  import opened Quorum
  import opened Minimmit
  import opened MinimmitChain
  import opened MinimmitExecution

  // ---- the new committee ---------------------------------------------------

  predicate UnitWeights(vs: seq<Validator>) { forall i | 0 <= i < |vs| :: vs[i].weight == 1 }

  lemma {:induction false} UnitTotal(vs: seq<Validator>)
    requires UnitWeights(vs)
    ensures TotalWeight(vs) == |vs|
  {
    if vs != [] { UnitTotal(vs[..|vs| - 1]); }
  }

  /** `MinimmitCommittee::new_unit`: at least two canonical members of weight one, and the greatest Byzantine
      bound their number allows. */
  method NewUnitCommittee(epoch: u64, vs: seq<Validator>, parses: Key -> bool) returns (r: CommitteeResult)
    ensures r.Built? <==> Canonical(vs) && UnitWeights(vs) && |vs| >= 2 && forall v | v in vs :: parses(v.publicKey)
    ensures r.Built? ==>
            && ValidCommittee(r.committee) && r.committee.epoch == epoch && r.committee.Members() == vs
            && 5 * r.committee.byzantine + 1 <= |vs| < 5 * (r.committee.byzantine + 1) + 1
  {
    for k := 0 to |vs|
      invariant forall i | 0 <= i < k :: vs[i].weight == 1
    {
      if vs[k].weight != 1 { return Rejected(InvalidValidatorSet); }
    }
    UnitTotal(vs);
    var n := if |vs| < U64_SIZE then |vs| else U64_SIZE - 1;
    r := NewCommittee(epoch, vs, SaturatingSub(n, 1) / 5, parses);
  }

  // ---- rotation ------------------------------------------------------------

  /** The chain, its tip and the verified blocks stay; views, votes, proofs and halted voters start over. */
  function Rotated(r: Replica): Replica {
    r.(view := 0, notarized := None, nullified := false, seen := map[], pending := map[], proofs := map[],
       notarizes := map[], nullifies := map[], halted := {})
  }

  function GateRotated(g: Gate): Gate { g.(votes := map[], certs := map[]) }

  datatype Update = Update(activation: u64, validators: seq<Validator>)

  datatype EpochError =
    | NoPendingUpdate
    | WrongActivationEpoch(activation: u64, requested: u64)
    | ExecutionCertificatesPending
    | InvalidCommittee(error: CommitteeError)
    | ReplicaRemoved

  predicate Drained(g: Gate) { forall h | h in g.stages :: g.stages[h].Finalized? }

  /** What the new set must be, for this key to have a place in it. */
  ghost predicate Acceptable(vs: seq<Validator>, parses: Key -> bool) {
    Canonical(vs) && UnitWeights(vs) && |vs| >= 2 && forall v | v in vs :: parses(v.publicKey)
  }

  /** The replica across epochs; `key` is its signing key, if it votes. */
  class EpochReplica {
    const key: Option<Key>
    var committee: Committee
    var index: nat
    var update: Option<Update>
    var replica: Replica
    var gate: Gate

    constructor (committee: Committee, index: nat, key: Option<Key>, genesis: Hash)
      ensures this.committee == committee && this.index == index && this.key == key && update == None
      ensures replica == NewReplica(genesis) && gate == NEW_GATE
    {
      this.committee, this.index, this.key := committee, index, key;
      update, replica, gate := None, NewReplica(genesis), NEW_GATE;
    }

    method ScheduleUpdate(u: Update)
      modifies this`update
      ensures update == Some(u)
    {
      update := Some(u);
    }

    /** The member's place in the new set: by key if it signs, else its old index if that still exists. */
    method PlaceIn(vs: seq<Validator>) returns (place: Option<nat>)
      ensures key.Some? && place.Some? ==> place.value < |vs| && vs[place.value].publicKey == key.value
      ensures key.Some? && place == None ==> forall v | v in vs :: v.publicKey != key.value
      ensures key == None ==> place == if index < |vs| then Some(index) else None
    {
      if key == None { return if index < |vs| then Some(index) else None; }
      for i := 0 to |vs|
        invariant forall j | 0 <= j < i :: vs[j].publicKey != key.value
      {
        if vs[i].publicKey == key.value { return Some(i); }
      }
      return None;
    }

    /** `activate_epoch`: nothing changes unless an update for this very epoch is scheduled, every
        consensus-final height is finalized, and the new set is a committee with this replica in it. */
    method ActivateEpoch(epoch: u64, parses: Key -> bool) returns (r: Result<(), EpochError>)
      modifies this
      ensures r.Ok? <==>
              && old(update).Some? && old(update).value.activation == epoch && Drained(old(gate))
              && Acceptable(old(update).value.validators, parses)
              && HasPlace(key, old(index), old(update).value.validators)
      ensures r.Err? ==> committee == old(committee) && index == old(index) && update == old(update)
                         && replica == old(replica) && gate == old(gate)
      ensures old(update) == None ==> r == Err(NoPendingUpdate)
      ensures old(update).Some? && old(update).value.activation != epoch ==>
                r == Err(WrongActivationEpoch(old(update).value.activation, epoch))
      ensures old(update).Some? && old(update).value.activation == epoch && !Drained(old(gate)) ==>
                r == Err(ExecutionCertificatesPending)
      ensures old(update).Some? && old(update).value.activation == epoch && Drained(old(gate)) && r.Err? ==>
                (r.error == ReplicaRemoved <==> Acceptable(old(update).value.validators, parses))
                && (r.error.InvalidCommittee? <==> !Acceptable(old(update).value.validators, parses))
      ensures r.Ok? ==>
              && ValidCommittee(committee) && committee.epoch == epoch
              && committee.Members() == old(update).value.validators && index < |committee.Members()|
              && (key.Some? ==> committee.Members()[index].publicKey == key.value)
              && update == None && replica == Rotated(old(replica)) && gate == GateRotated(old(gate))
    {
      if update == None { return Err(NoPendingUpdate); }
      var u := update.value;
      if u.activation != epoch { return Err(WrongActivationEpoch(u.activation, epoch)); }
      if !Drained(gate) { return Err(ExecutionCertificatesPending); }
      var built := NewUnitCommittee(epoch, u.validators, parses);
      if built.Rejected? { return Err(InvalidCommittee(built.error)); }
      var place := PlaceIn(u.validators);
      if place == None { return Err(ReplicaRemoved); }
      update, committee, index := None, built.committee, place.value;
      replica, gate := Rotated(replica), GateRotated(gate);
      return Ok(());
    }
  }

  predicate HasPlace(key: Option<Key>, index: nat, vs: seq<Validator>) {
    match key
    case Some(k) => exists v | v in vs :: v.publicKey == k
    case None => index < |vs|
  }

  // ---- within the new epoch ------------------------------------------------

  /** Votes bind their epoch: none has been cast yet, and every honest member's replica is rotated. */
  ghost predicate StartsEpoch(net: Net, w: World) {
    && w.cast == {} && Total(net, w)
    && forall i | net.Honest(i) && i in w.replicas ::
         w.replicas[i] == Rotated(w.replicas[i]) && BlocksNamed(net, w.replicas[i].blocks)
  }

  lemma {:induction false} StartsEpochInv(net: Net, w: World)
    requires StartsEpoch(net, w)
    ensures Inv(net, w)
  {
    forall i | net.Honest(i) && i in w.replicas ensures InOrder(net, w, w.replicas[i]) {
      assert w.replicas[i] == Rotated(w.replicas[i]);
    }
  }

  ghost predicate RunFrom(net: Net, w: World, actions: seq<Action>) {
    actions == [] ||
    (var init := actions[..|actions| - 1];
     RunFrom(net, w, init) && Enabled(net, AfterFrom(net, w, init), actions[|actions| - 1]))
  }

  ghost function AfterFrom(net: Net, w: World, actions: seq<Action>): World {
    if actions == [] then w
    else
      var before := AfterFrom(net, w, actions[..|actions| - 1]);
      if Enabled(net, before, actions[|actions| - 1]) then Apply(net, before, actions[|actions| - 1]) else before
  }

  lemma {:induction false} EpochInv(net: Net, w: World, actions: seq<Action>)
    requires ValidNet(net) && StartsEpoch(net, w) && RunFrom(net, w, actions)
    ensures Inv(net, AfterFrom(net, w, actions))
  {
    if actions == [] {
      StartsEpochInv(net, w);
    } else {
      var init := actions[..|actions| - 1];
      EpochInv(net, w, init);
      StepInv(net, AfterFrom(net, w, init), actions[|actions| - 1]);
    }
  }

  /** Whatever the replicas kept from earlier epochs, over every run of the new one its L-notarized blocks lie
      on one chain, and no view with one is nullified. */
  lemma {:induction false} EpochAgreement(net: Net, w: World, actions: seq<Action>, v: nat, b: Hash, v': nat, c: Hash)
    requires ValidNet(net) && StartsEpoch(net, w) && RunFrom(net, w, actions)
    requires LCert(net, AfterFrom(net, w, actions), v, b) && LCert(net, AfterFrom(net, w, actions), v', c)
    ensures Descends(net, AfterFrom(net, w, actions), b, c) || Descends(net, AfterFrom(net, w, actions), c, b)
    ensures !NCert(net, AfterFrom(net, w, actions), v)
  {
    EpochInv(net, w, actions);
    FinalizedComparable(net, AfterFrom(net, w, actions), v, b, v', c);
    FinalizedIsNotNullified(net, AfterFrom(net, w, actions), v, b);
  }

  // ---- across the boundary -------------------------------------------------

  /** Genesis first, then proposed blocks, each after its parent. */
  ghost predicate Ancestry(net: Net, line: seq<Hash>) {
    && line != [] && line[0] == net.genesis
    && forall k | 0 < k < |line| :: line[k] != net.genesis && ParentOf(net, line[k]) == line[k - 1]
  }

  ghost predicate LinearBy(net: Net, chain: map<nat, Hash>, staged: set<nat>, line: seq<Hash>) {
    Ancestry(net, line) && Holds(net, chain, staged, line)
  }

  /** The chain is one line of ancestors. */
  ghost predicate Linear(net: Net, r: Replica) { exists line :: LinearBy(net, r.chain, r.staged, line) }

  /** Lines of ancestors are lines of blocks someone may have voted for. */
  ghost function Voters(line: seq<Hash>): World { World(map[], set k | 0 <= k < |line| :: Notarize(0, line[k], 0)) }

  lemma {:induction false} AncestryIsLine(net: Net, line: seq<Hash>)
    requires Ancestry(net, line)
    ensures Line(net, Voters(line), line)
  {
    forall k | 0 < k < |line| ensures Child(net, Voters(line), line[k - 1], line[k]) {
      assert Notarize(0, line[k], 0) in Voters(line).cast;
    }
  }

  /** The walked path: proposed blocks off the chain, each after its parent, the first after a chain block. */
  ghost predicate Upward(net: Net, chain: map<nat, Hash>, path: seq<Hash>) {
    && (forall k | 0 <= k < |path| :: path[k] !in chain.Values && path[k] != net.genesis)
    && (forall k | 0 < k < |path| :: ParentOf(net, path[k]) == path[k - 1])
    && (path != [] ==> ParentOf(net, path[0]) in chain.Values)
  }

  lemma {:induction false} WalkUpward(
    net: Net, chain: map<nat, Hash>, blocks: map<Hash, Placed>, cursor: Hash, seen: set<Hash>)
    requires HeadersBind(net) && BlocksNamed(net, blocks)
    ensures var walked := Walk(chain, blocks, cursor, seen);
            walked.Found? ==>
              && Upward(net, chain, walked.path)
              && (if walked.path == [] then cursor in chain.Values else Last(walked.path) == cursor)
    decreases |blocks.Keys - seen|
  {
    if cursor !in chain.Values && cursor in blocks && cursor !in seen {
      FewerLeft(blocks.Keys - (seen + {cursor}), blocks.Keys - seen);
      var parent := blocks[cursor].header.parent;
      NamedOnce(net, cursor, blocks[cursor].header);
      WalkUpward(net, chain, blocks, parent, seen + {cursor});
      var before := Walk(chain, blocks, parent, seen + {cursor});
      if before.Found? { UpwardMore(net, chain, before.path, cursor); }
    }
  }

  lemma {:induction false} UpwardMore(net: Net, chain: map<nat, Hash>, path: seq<Hash>, b: Hash)
    requires Upward(net, chain, path) && b !in chain.Values && b != net.genesis
    requires if path == [] then ParentOf(net, b) in chain.Values else ParentOf(net, b) == Last(path)
    ensures Upward(net, chain, path + [b])
  {
  }

  predicate Newer(r: Replica, v: nat) { r.tip.Some? ==> r.tip.value < v }

  /** The chain already holds a child of this block's parent. */
  ghost predicate HasSibling(net: Net, r: Replica, b: Hash) {
    exists x :: x in r.chain.Values && x != net.genesis && ParentOf(net, x) == ParentOf(net, b)
  }

  /** The walk from this block ends below the tip of the chain, and the height it would start at is free. */
  ghost predicate Branches(net: Net, r: Replica, v: nat, b: Hash) {
    var walked := Walk(r.chain, r.blocks, b, {});
    && Newer(r, v) && walked.Found? && walked.path != []
    && HeightOf(net, walked.path[0]) !in r.chain && HasSibling(net, r, walked.path[0])
  }

  lemma {:induction false} AncestryPrefix(net: Net, line: seq<Hash>, n: nat)
    requires Ancestry(net, line) && 0 < n <= |line|
    ensures Ancestry(net, line[..n])
  {
  }

  /** Without such a child, the path goes on from the last block of the line. */
  lemma {:induction false} ContinuesLine(net: Net, r: Replica, line: seq<Hash>, path: seq<Hash>)
    requires LinearBy(net, r.chain, r.staged, line) && Upward(net, r.chain, path) && path != []
    requires !HasSibling(net, r, path[0])
    ensures Ancestry(net, line + path)
  {
    HoldsValues(net, r.chain, r.staged, line, ParentOf(net, path[0]));
    var m :| 0 <= m < |line| && line[m] == ParentOf(net, path[0]);
    InnerHasSibling(net, r, line, m, path[0]);
    AncestryJoins(net, r.chain, line, path);
  }

  lemma {:induction false} InnerHasSibling(net: Net, r: Replica, line: seq<Hash>, m: nat, b: Hash)
    requires LinearBy(net, r.chain, r.staged, line) && m < |line| && line[m] == ParentOf(net, b)
    ensures m == |line| - 1 || HasSibling(net, r, b)
  {
    if m + 1 < |line| { HoldsValues(net, r.chain, r.staged, line, line[m + 1]); }
  }

  lemma {:induction false} AncestryJoins(net: Net, chain: map<nat, Hash>, line: seq<Hash>, path: seq<Hash>)
    requires Ancestry(net, line) && Upward(net, chain, path) && path != [] && ParentOf(net, path[0]) == Last(line)
    ensures Ancestry(net, line + path)
  {
    var full := line + path;
    forall k | 0 < k < |full| ensures full[k] != net.genesis && ParentOf(net, full[k]) == full[k - 1] {
      if k > |line| { assert full[k] == path[k - |line|] && full[k - 1] == path[k - |line| - 1]; }
    }
  }

  lemma {:induction false} FilledLinear(net: Net, r: Replica, line: seq<Hash>, path: seq<Hash>)
    requires HeadersBind(net) && BlocksNamed(net, r.blocks) && AllPlaced(r.blocks, path)
    requires LinearBy(net, r.chain, r.staged, line) && Ancestry(net, line + path)
    ensures var f := Fill(r.chain, r.staged, r.blocks, path); Linear(net, r.(chain := f.chain, staged := f.staged))
  {
    var full := line + path;
    assert full[..|line|] == line && full[|line|..] == path;
    AncestryIsLine(net, full);
    var n := FillLine(net, Voters(full), r.chain, r.staged, r.blocks, full, |line|);
    AncestryPrefix(net, full, n);
    var f := Fill(r.chain, r.staged, r.blocks, path);
    assert LinearBy(net, f.chain, f.staged, full[..n]);
  }

  /** Two children of one block do not fit on one line. */
  lemma {:induction false} OneChild(net: Net, r: Replica, x: Hash, y: Hash)
    requires Linear(net, r) && x in r.chain.Values && y in r.chain.Values && x != net.genesis && y != net.genesis
    requires ParentOf(net, x) == ParentOf(net, y)
    ensures x == y
  {
    var line :| LinearBy(net, r.chain, r.staged, line);
    HoldsValues(net, r.chain, r.staged, line, x);
    HoldsValues(net, r.chain, r.staged, line, y);
    var p :| 0 <= p < |line| && line[p] == x;
    var q :| 0 <= q < |line| && line[q] == y;
    AncestryIsLine(net, line);
    if p < q { LineDistinct(net, Voters(line), line, p - 1, q - 1); }
    if q < p { LineDistinct(net, Voters(line), line, q - 1, p - 1); }
  }

  /** Filling from a free height puts the path's first block on the chain, beside all that was there. */
  lemma {:induction false} FillFirstBlock(net: Net, r: Replica, path: seq<Hash>, x: Hash)
    requires HeadersBind(net) && BlocksNamed(net, r.blocks) && AllPlaced(r.blocks, path) && path != []
    requires r.staged <= r.chain.Keys && HeightOf(net, path[0]) !in r.chain && x in r.chain.Values
    ensures var f := Fill(r.chain, r.staged, r.blocks, path); path[0] in f.chain.Values && x in f.chain.Values
  {
    var h := HeightOf(net, path[0]);
    NamedOnce(net, path[0], r.blocks[path[0]].header);
    var one, f := r.chain[h := path[0]], Fill(r.chain, r.staged, r.blocks, path);
    FillKeeps(one, r.staged + {h}, r.blocks, path[1..]);
    assert h in one && f.chain[h] == path[0];
    var g :| g in r.chain && r.chain[g] == x;
    assert g in one && f.chain[g] == x;
  }

  lemma {:induction false} TakenHeightStops(net: Net, r: Replica, path: seq<Hash>)
    requires HeadersBind(net) && BlocksNamed(net, r.blocks) && AllPlaced(r.blocks, path) && path != []
    requires HeightOf(net, path[0]) in r.chain && path[0] !in r.chain.Values
    ensures Fill(r.chain, r.staged, r.blocks, path) == Filled(r.chain, r.staged, false)
  {
    NamedOnce(net, path[0], r.blocks[path[0]].header);
  }

  lemma SameLinear(net: Net, r: Replica, r': Replica)
    requires r'.chain == r.chain && r'.staged == r.staged
    ensures Linear(net, r') == Linear(net, r)
  {
  }

  lemma FinalizeShape(r: Replica, v: nat, b: Hash)
    ensures var f, walked := Finalize(r, v, b), Walk(r.chain, r.blocks, b, {});
            if Newer(r, v) && walked.Found? then
              && AllPlaced(r.blocks, walked.path)
              && f.chain == Fill(r.chain, r.staged, r.blocks, walked.path).chain
              && f.staged == Fill(r.chain, r.staged, r.blocks, walked.path).staged
            else f == r
  {
    WalkPlaced(r.chain, r.blocks, b, {});
  }

  /** Finalizing keeps a chain one line of ancestors exactly if the walk does not branch off it. */
  lemma {:induction false} LinearUnlessBranches(net: Net, r: Replica, v: nat, b: Hash)
    requires HeadersBind(net) && BlocksNamed(net, r.blocks) && Linear(net, r)
    ensures Linear(net, Finalize(r, v, b)) <==> !Branches(net, r, v, b)
  {
    var f, walked := Finalize(r, v, b), Walk(r.chain, r.blocks, b, {});
    FinalizeShape(r, v, b);
    if Newer(r, v) && walked.Found? && walked.path != [] {
      WalkUpward(net, r.chain, r.blocks, b, {});
      PathLinear(net, r, walked.path);
      SameLinear(net, r.(chain := f.chain, staged := f.staged), f);
    } else {
      SameLinear(net, r, f);
    }
  }

  lemma {:induction false} PathLinear(net: Net, r: Replica, path: seq<Hash>)
    requires HeadersBind(net) && BlocksNamed(net, r.blocks) && Linear(net, r)
    requires path != [] && AllPlaced(r.blocks, path) && Upward(net, r.chain, path)
    ensures var f := Fill(r.chain, r.staged, r.blocks, path);
            Linear(net, r.(chain := f.chain, staged := f.staged)) <==>
              HeightOf(net, path[0]) in r.chain || !HasSibling(net, r, path[0])
  {
    var line :| LinearBy(net, r.chain, r.staged, line);
    var f := Fill(r.chain, r.staged, r.blocks, path);
    var after := r.(chain := f.chain, staged := f.staged);
    if HeightOf(net, path[0]) in r.chain {
      TakenHeightStops(net, r, path);
      SameLinear(net, r, after);
    } else if HasSibling(net, r, path[0]) {
      var x :| x in r.chain.Values && x != net.genesis && ParentOf(net, x) == ParentOf(net, path[0]);
      FillFirstBlock(net, r, path, x);
      if Linear(net, after) { OneChild(net, after, x, path[0]); }
    } else {
      ContinuesLine(net, r, line, path);
      FilledLinear(net, r, line, path);
    }
  }

  // ---- siblings of one height ----------------------------------------------

  /** Proposed blocks with one parent have one height, as when each is one higher than its parent. */
  ghost predicate LevelSiblings(net: Net) {
    forall g, h | g in net.headers && h in net.headers && g.parent == h.parent :: g.height == h.height
  }

  /** On a chain only genesis has height 0, so every other block is a proposed one. */
  lemma {:induction false} HeldIsNamed(net: Net, r: Replica, x: Hash) returns (h: Header)
    requires Linear(net, r) && x in r.chain.Values && x != net.genesis
    ensures Names(net, x, h) && HeightOf(net, x) in r.chain
  {
    var line :| LinearBy(net, r.chain, r.staged, line);
    HoldsValues(net, r.chain, r.staged, line, x);
    var k :| 0 <= k < |line| && line[k] == x;
    assert HeightAt(net, line, 0) == 0 && HeightAt(net, line, k) == HeightOf(net, x);
    h :| Names(net, x, h);
  }

  /** Then a child of a block that has one on the chain finds its height taken. */
  lemma {:induction false} SiblingHeight(net: Net, r: Replica, b: Hash, g: Header)
    requires HeadersBind(net) && LevelSiblings(net) && Linear(net, r) && Names(net, b, g) && HasSibling(net, r, b)
    ensures HeightOf(net, b) in r.chain
  {
    var x :| x in r.chain.Values && x != net.genesis && ParentOf(net, x) == ParentOf(net, b);
    var h := HeldIsNamed(net, r, x);
    NamedOnce(net, x, h);
    NamedOnce(net, b, g);
  }

  lemma {:induction false} LevelNeverBranches(net: Net, r: Replica, v: nat, b: Hash)
    requires HeadersBind(net) && LevelSiblings(net) && BlocksNamed(net, r.blocks) && Linear(net, r)
    ensures !Branches(net, r, v, b)
  {
    var walked := Walk(r.chain, r.blocks, b, {});
    WalkPlaced(r.chain, r.blocks, b, {});
    if walked.Found? && walked.path != [] && HasSibling(net, r, walked.path[0]) {
      SiblingHeight(net, r, walked.path[0], r.blocks[walked.path[0]].header);
    }
  }

  lemma {:induction false} ActedLinear(net: Net, w: World, a: Action)
    requires ValidNet(net) && LevelSiblings(net) && Inv(net, w) && Enabled(net, w, a) && Linear(net, w.replicas[a.i])
    ensures Linear(net, Acted(net, w.replicas[a.i], a))
  {
    var r := w.replicas[a.i];
    assert InOrder(net, w, r);
    match a
    case TakeNotarization(_, view, block, signers) =>
      TakenLinear(net, r, view, block, Weight(net.Members(), signers) >= net.committee.L());
    case Verdict(_, view, block, valid) => JudgedLinear(net, r, view, block, valid);
    case _ =>
      QuietTip(net, r, a);
      SameLinear(net, r, Acted(net, r, a));
  }

  lemma {:induction false} TakenLinear(net: Net, r: Replica, v: nat, b: Hash, large: bool)
    requires HeadersBind(net) && LevelSiblings(net) && BlocksNamed(net, r.blocks) && Linear(net, r)
    ensures Linear(net, Taken(r, v, b, large))
  {
    var stored := Store(r, v, Notarized(b, large));
    StoreFrame(r, v, Notarized(b, large));
    SameLinear(net, r, stored);
    LevelNeverBranches(net, stored, v, b);
    LinearUnlessBranches(net, stored, v, b);
  }

  lemma {:induction false} JudgedLinear(net: Net, r: Replica, v: nat, b: Hash, valid: bool)
    requires HeadersBind(net) && LevelSiblings(net) && Stocked(net, r) && Linear(net, r)
    ensures Linear(net, Judged(net.sha, net.genesis, r, v, b, valid))
  {
    if Late(net.sha, r, v, b, valid) {
      var kept := Kept(r, v, b);
      JudgedLate(net.sha, net.genesis, r, v, b, valid);
      assert Names(net, b, r.pending[v].header);
      SameLinear(net, r, kept);
      LevelNeverBranches(net, kept, v, b);
      LinearUnlessBranches(net, kept, v, b);
    } else {
      JudgedInTime(net.sha, net.genesis, r, v, b, valid);
      SameLinear(net, r, Judged(net.sha, net.genesis, r, v, b, valid));
    }
  }

  /** Then every chain stays one line of ancestors, over every run of every epoch. */
  lemma {:induction false} EpochStaysLinear(net: Net, w: World, actions: seq<Action>, i: nat)
    requires ValidNet(net) && LevelSiblings(net) && StartsEpoch(net, w) && RunFrom(net, w, actions)
    requires net.Honest(i) && i in w.replicas && Linear(net, w.replicas[i])
    ensures i in AfterFrom(net, w, actions).replicas && Linear(net, AfterFrom(net, w, actions).replicas[i])
  {
    if actions != [] {
      var init, a := actions[..|actions| - 1], actions[|actions| - 1];
      EpochStaysLinear(net, w, init, i);
      EpochInv(net, w, init);
      StepFrame(net, AfterFrom(net, w, init), a);
      if a.i == i { ActedLinear(net, AfterFrom(net, w, init), a); }
    }
  }

  // ---- what it takes to grow -----------------------------------------------

  /** A block has one ancestry. */
  lemma {:induction false} OneAncestry(net: Net, w: World, a: seq<Hash>, b: seq<Hash>)
    requires Ancestry(net, a) && Line(net, w, b) && Last(a) == Last(b)
    ensures a == b
  {
    var both := World(map[], Voters(a).cast + w.cast);
    AncestryIsLine(net, a);
    LineGrows(net, Voters(a), both, a);
    LineGrows(net, w, both, b);
    OneLine(net, both, a, b);
  }

  /** A chain that grows and stays one line is a prefix of the new block's own ancestry. */
  lemma {:induction false} GrowsAlongAncestry(
    net: Net, w: World, r: Replica, v: nat, b: Hash, line: seq<Hash>, full: seq<Hash>)
    requires HeadersBind(net) && BlocksNamed(net, r.blocks) && LinearBy(net, r.chain, r.staged, line)
    requires Line(net, w, full) && Last(full) == b
    requires Linear(net, Finalize(r, v, b)) && Finalize(r, v, b).chain != r.chain
    ensures line <= full
  {
    var walked := Walk(r.chain, r.blocks, b, {});
    FinalizeShape(r, v, b);
    WalkUpward(net, r.chain, r.blocks, b, {});
    LinearUnlessBranches(net, r, v, b);
    if HeightOf(net, walked.path[0]) in r.chain { TakenHeightStops(net, r, walked.path); }
    ContinuesLine(net, r, line, walked.path);
    OneAncestry(net, w, line + walked.path, full);
  }

  /** After a rotation a chain that stays one line grows only if every block it already holds is notarized
      again: over every run of the new epoch, for every block L-notarized in it. */
  lemma {:induction false} RotatedGrowsByReplay(
    net: Net, w: World, actions: seq<Action>, i: nat, line: seq<Hash>, v: nat, b: Hash)
    requires ValidNet(net) && StartsEpoch(net, w) && RunFrom(net, w, actions) && net.Honest(i)
    requires i in AfterFrom(net, w, actions).replicas && LCert(net, AfterFrom(net, w, actions), v, b)
    requires var r := AfterFrom(net, w, actions).replicas[i];
             LinearBy(net, r.chain, r.staged, line) && Finalize(r, v, b).chain != r.chain
             && Linear(net, Finalize(r, v, b))
    ensures forall k | 0 < k < |line| :: Voted(AfterFrom(net, w, actions), line[k])
  {
    var now := AfterFrom(net, w, actions);
    EpochInv(net, w, actions);
    LIsM(net, now, v, b);
    var full := LineTo(net, now, v, b);
    assert InOrder(net, now, now.replicas[i]);
    GrowsAlongAncestry(net, now, now.replicas[i], v, b, line, full);
    forall k | 0 < k < |line| ensures Voted(now, line[k]) { assert Child(net, now, full[k - 1], full[k]); }
  }

  // ---- until the view passes the tip ---------------------------------------

  ghost predicate NoneAbove(net: Net, w: World, t: nat) { forall v: nat, b | LCert(net, w, v, b) :: v <= t }

  lemma {:induction false} VerdictStalls(net: Net, w: World, r: Replica, v: nat, b: Hash, valid: bool, t: nat)
    requires InOrder(net, w, r) && r.tip == Some(t) && NoneAbove(net, w, t)
    ensures SameTip(Judged(net.sha, net.genesis, r, v, b, valid), r)
  {
    if Late(net.sha, r, v, b, valid) {
      LateNotAbove(net, w, r, v, b, t);
      JudgedLate(net.sha, net.genesis, r, v, b, valid);
      FinalizeStalls(Kept(r, v, b), v, b, t);
    } else {
      JudgedInTime(net.sha, net.genesis, r, v, b, valid);
    }
  }

  lemma {:induction false} LateNotAbove(net: Net, w: World, r: Replica, v: nat, b: Hash, t: nat)
    requires Sound(net, w, r) && NoneAbove(net, w, t) && v in r.proofs && r.proofs[v] == Notarized(b, true)
    ensures v <= t
  {
    assert Backed(net, w, v, r.proofs[v]);
  }

  lemma FinalizeStalls(r: Replica, v: nat, b: Hash, t: nat)
    requires r.tip == Some(t) && v <= t
    ensures Finalize(r, v, b) == r
  {
  }

  lemma {:induction false} TakenStalls(r: Replica, v: nat, b: Hash, large: bool, t: nat)
    requires r.tip == Some(t) && (large ==> v <= t)
    ensures SameTip(Taken(r, v, b, large), r)
  {
    StoreFrame(r, v, Notarized(b, large));
    if large { FinalizeStalls(Store(r, v, Notarized(b, large)), v, b, t); }
  }

  lemma {:induction false} ActedStalls(net: Net, w: World, a: Action, t: nat)
    requires Inv(net, w) && Enabled(net, w, a) && w.replicas[a.i].tip == Some(t) && NoneAbove(net, w, t)
    ensures SameTip(Acted(net, w.replicas[a.i], a), w.replicas[a.i])
  {
    var r := w.replicas[a.i];
    assert InOrder(net, w, r);
    match a
    case TakeNotarization(_, view, block, signers) =>
      var large := Weight(net.Members(), signers) >= net.committee.L();
      if large {
        assert NotarizeQuorum(net, w, view, block, signers, net.committee.L());
        assert LCert(net, w, view, block);
      }
      TakenStalls(r, view, block, large, t);
    case Verdict(_, view, block, valid) => VerdictStalls(net, w, r, view, block, valid, t);
    case _ => QuietTip(net, r, a);
  }

  lemma {:induction false} NoneAboveBefore(net: Net, w: World, w': World, t: nat)
    requires w.cast <= w'.cast && NoneAbove(net, w', t)
    ensures NoneAbove(net, w, t)
  {
    forall v: nat, b | LCert(net, w, v, b) ensures v <= t { LCertGrows(net, w, w', v, b); }
  }

  /** View numbers start over but the tip's view stays: over every run of the new epoch a replica's chain does
      not change before a view above the old tip's is L-notarized. */
  lemma {:induction false} RotationStalls(net: Net, w: World, actions: seq<Action>, i: nat, t: nat)
    requires ValidNet(net) && StartsEpoch(net, w) && RunFrom(net, w, actions) && net.Honest(i)
    requires i in w.replicas && w.replicas[i].tip == Some(t) && NoneAbove(net, AfterFrom(net, w, actions), t)
    ensures i in AfterFrom(net, w, actions).replicas && SameTip(AfterFrom(net, w, actions).replicas[i], w.replicas[i])
  {
    if actions != [] {
      var init, a := actions[..|actions| - 1], actions[|actions| - 1];
      var before := AfterFrom(net, w, init);
      StepFrame(net, before, a);
      NoneAboveBefore(net, before, AfterFrom(net, w, actions), t);
      RotationStalls(net, w, init, i, t);
      EpochInv(net, w, init);
      if a.i == i { ActedStalls(net, before, a, t); }
    }
  }

  // ---- a chain that branches -----------------------------------------------

  /** A rotated replica that holds x and has verified y. */
  function HoldsOneBlock(net: Net, x: Header, y: Header): Replica {
    var p, q := BlockHash(net.sha, x), BlockHash(net.sha, y);
    NewReplica(net.genesis).(blocks := map[p := Placed(0, x), q := Placed(1, y)], tip := Some(0),
                             chain := map[0 := net.genesis, x.height as nat := p], staged := {x.height as nat})
  }

  /** The inputs on which one line is lost: x before the rotation, then y, also on genesis as every first
      proposal of an epoch is, at another height. */
  lemma {:induction false} RotationBranches(net: Net, x: Header, y: Header)
    requires HeadersBind(net) && x in net.headers && y in net.headers
    requires x.parent == net.genesis && y.parent == net.genesis && 0 < x.height && 0 < y.height && x.height != y.height
    ensures var r := HoldsOneBlock(net, x, y);
            && r == Rotated(r) && Linear(net, r)
            && ValidParent(r.proofs, net.genesis, 0, y.parent, None)
            && !Linear(net, Finalize(r, 1, BlockHash(net.sha, y)))
  {
    var r, p, q := HoldsOneBlock(net, x, y), BlockHash(net.sha, x), BlockHash(net.sha, y);
    assert Names(net, p, x) && Names(net, q, y);
    NamedOnce(net, p, x);
    NamedOnce(net, q, y);
    HeldLine(net, r, p);
    assert p in r.chain.Values by { assert r.chain[x.height] == p; }
    BranchesBeside(net, r, p, q);
  }

  lemma {:induction false} BranchesBeside(net: Net, r: Replica, p: Hash, q: Hash)
    requires HeadersBind(net) && BlocksNamed(net, r.blocks) && Linear(net, r) && r.tip == Some(0)
    requires p in r.chain.Values && p != net.genesis && ParentOf(net, p) == net.genesis
    requires q in r.blocks && ParentOf(net, q) == r.blocks[q].header.parent == net.genesis
    requires net.genesis in r.chain.Values && q !in r.chain.Values && HeightOf(net, q) !in r.chain
    ensures !Linear(net, Finalize(r, 1, q))
  {
    WalkOne(net, r, q);
    assert HasSibling(net, r, q);
    LinearUnlessBranches(net, r, 1, q);
  }

  lemma {:induction false} HeldLine(net: Net, r: Replica, b: Hash)
    requires HeightOf(net, b) > 0 && r.chain == map[0 := net.genesis, HeightOf(net, b) := b]
    requires r.staged == {HeightOf(net, b)} && b != net.genesis && ParentOf(net, b) == net.genesis
    ensures Linear(net, r)
  {
    var line := [net.genesis, b];
    assert HeightAt(net, line, 0) == 0 && HeightAt(net, line, 1) == HeightOf(net, b);
    assert LinearBy(net, r.chain, r.staged, line);
  }

  lemma {:induction false} WalkOne(net: Net, r: Replica, b: Hash)
    requires net.genesis in r.chain.Values && b !in r.chain.Values
    requires b in r.blocks && r.blocks[b].header.parent == net.genesis
    ensures Walk(r.chain, r.blocks, b, {}) == Found([b])
  {
    assert Walk(r.chain, r.blocks, net.genesis, {} + {b}) == Found([]);
    assert [] + [b] == [b];
  }
}

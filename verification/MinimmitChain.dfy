/** The finalized chains of honest replicas, over every run of the protocol. */
module MinimmitChain {
  import opened Bytes
  import opened Hashing
  import opened Quorum
  import opened Minimmit

  // ---- lines of ancestors --------------------------------------------------

  /** Genesis first, then each block after its parent; every block but genesis has an honest vote. */
  ghost predicate Line(net: Net, w: World, line: seq<Hash>) {
    && line != [] && line[0] == net.genesis
    && forall k | 0 < k < |line| :: Child(net, w, line[k - 1], line[k])
  }

  ghost predicate Child(net: Net, w: World, parent: Hash, block: Hash) {
    Voted(w, block) && block != net.genesis && ParentOf(net, block) == parent
  }

  function Last(line: seq<Hash>): Hash
    requires line != []
  {
    line[|line| - 1]
  }

  lemma {:induction false} LineGrows(net: Net, w: World, w': World, line: seq<Hash>)
    requires w.cast <= w'.cast && Line(net, w, line)
    ensures Line(net, w', line)
  {
    forall k | 0 < k < |line| ensures Child(net, w', line[k - 1], line[k]) {
      assert Child(net, w, line[k - 1], line[k]);
    }
  }

  lemma {:induction false} LinePrefix(net: Net, w: World, line: seq<Hash>, n: nat)
    requires Line(net, w, line) && 0 < n <= |line|
    ensures Line(net, w, line[..n])
  {
    forall k | 0 < k < n ensures Child(net, w, line[..n][k - 1], line[..n][k]) {
      assert Child(net, w, line[k - 1], line[k]);
    }
  }

  lemma {:induction false} LineAppend(net: Net, w: World, line: seq<Hash>, b: Hash)
    requires Line(net, w, line) && Child(net, w, Last(line), b)
    ensures Line(net, w, line + [b])
  {
    var longer := line + [b];
    forall k | 0 < k < |longer| ensures Child(net, w, longer[k - 1], longer[k]) {
      if k < |line| { assert Child(net, w, line[k - 1], line[k]); }
    }
  }

  /** No block stands twice on a line. */
  lemma {:induction false} LineDistinct(net: Net, w: World, line: seq<Hash>, i: nat, j: nat)
    requires Line(net, w, line) && i < j < |line|
    ensures line[i] != line[j]
    decreases i
  {
    assert Child(net, w, line[j - 1], line[j]);
    if i > 0 {
      assert Child(net, w, line[i - 1], line[i]);
      LineDistinct(net, w, line, i - 1, j - 1);
    }
  }

  /** A block has at most one line. */
  lemma {:induction false} OneLine(net: Net, w: World, a: seq<Hash>, b: seq<Hash>)
    requires Line(net, w, a) && Line(net, w, b) && Last(a) == Last(b)
    ensures a == b
    decreases |a|
  {
    var m, n := |a| - 1, |b| - 1;
    if m > 0 { assert Child(net, w, a[m - 1], a[m]); }
    if n > 0 { assert Child(net, w, b[n - 1], b[n]); }
    if m > 0 && n > 0 {
      LinePrefix(net, w, a, m);
      LinePrefix(net, w, b, n);
      OneLine(net, w, a[..m], b[..n]);
      assert a == a[..m] + [a[m]] && b == b[..n] + [b[n]];
    }
  }

  /** Along a line, earlier blocks are ancestors of later ones. */
  lemma {:induction false} LinePath(net: Net, w: World, line: seq<Hash>, i: nat, j: nat)
    requires Line(net, w, line) && i <= j < |line|
    ensures Path(net, w, line[j], line[i], j - i)
    decreases j
  {
    if i < j {
      LinePath(net, w, line, i, j - 1);
      assert Child(net, w, line[j - 1], line[j]);
      PathStep(net, w, line[j], line[i], j - 1 - i);
    }
  }

  /** Every M-notarized block has a line from genesis. */
  lemma {:induction false} LineTo(net: Net, w: World, v: nat, b: Hash) returns (line: seq<Hash>)
    requires ValidNet(net) && Inv(net, w) && MCert(net, w, v, b)
    ensures Line(net, w, line) && Last(line) == b
    decreases v
  {
    var i := MCertVoter(net, w, v, b);
    assert Justified(net, w, v, b) && Notarize(v, b, i).block != net.genesis;
    if p: nat :| ParentAt(net, w, v, b, p) {
      line := LineTo(net, w, p, ParentOf(net, b));
    } else {
      line := [net.genesis];
    }
    LineAppend(net, w, line, b);
    line := line + [b];
  }

  /** Every M-notarized block descends from genesis through blocks with honest votes. */
  lemma {:induction false} NotarizedReachGenesis(net: Net, w: World, v: nat, b: Hash)
    requires ValidNet(net) && Inv(net, w) && MCert(net, w, v, b)
    ensures Descends(net, w, b, net.genesis)
  {
    var line := LineTo(net, w, v, b);
    LinePath(net, w, line, 0, |line| - 1);
  }

  // ---- finalized lines -----------------------------------------------------

  /** A block some steps up a line, before genesis is reached. */
  lemma {:induction false} UpLine(net: Net, w: World, line: seq<Hash>, n: nat)
    requires Line(net, w, line) && n < |line|
    ensures Up(net, Last(line), n) == line[|line| - 1 - n]
    decreases |line|
  {
    if n > 0 {
      var m := |line| - 1;
      assert Child(net, w, line[m - 1], line[m]);
      LinePrefix(net, w, line, m);
      UpLine(net, w, line[..m], n - 1);
    }
  }

  /** An ancestor through voted blocks lies on the block's line: genesis has no vote. */
  lemma {:induction false} AncestorOnLine(net: Net, w: World, line: seq<Hash>, c: Hash, n: nat)
    requires VotesJustified(net, w) && Line(net, w, line) && Path(net, w, Last(line), c, n)
    ensures n < |line| && c == line[|line| - 1 - n]
  {
    GenesisUnvoted(net, w);
    if n >= |line| {
      UpLine(net, w, line, |line| - 1);
      assert false;
    }
    UpLine(net, w, line, n);
  }

  lemma GenesisUnvoted(net: Net, w: World)
    requires VotesJustified(net, w)
    ensures !Voted(w, net.genesis)
  {
  }

  /** The lines of two L-notarized blocks: one is a prefix of the other. */
  lemma {:induction false} FinalLinesComparable(
    net: Net, w: World, v: nat, a: seq<Hash>, v': nat, b: seq<Hash>)
    requires ValidNet(net) && Inv(net, w) && Line(net, w, a) && Line(net, w, b)
    requires LCert(net, w, v, Last(a)) && LCert(net, w, v', Last(b))
    ensures a <= b || b <= a
  {
    FinalizedComparable(net, w, v, Last(a), v', Last(b));
    if n: nat :| Path(net, w, Last(a), Last(b), n) {
      OnLine(net, w, a, b, n);
    } else {
      var n: nat :| Path(net, w, Last(b), Last(a), n);
      OnLine(net, w, b, a, n);
    }
  }

  lemma {:induction false} OnLine(net: Net, w: World, a: seq<Hash>, b: seq<Hash>, n: nat)
    requires VotesJustified(net, w) && Line(net, w, a) && Line(net, w, b) && Path(net, w, Last(a), Last(b), n)
    ensures b <= a
  {
    AncestorOnLine(net, w, a, Last(b), n);
    LinePrefix(net, w, a, |a| - n);
    OneLine(net, w, a[..|a| - n], b);
  }

  /** The line leads up to an L-notarized block, or is genesis alone. */
  ghost predicate Final(net: Net, w: World, line: seq<Hash>) {
    line == [net.genesis] || exists v: nat, full :: Leads(net, w, line, v, full)
  }

  ghost predicate Leads(net: Net, w: World, line: seq<Hash>, v: nat, full: seq<Hash>) {
    Line(net, w, full) && LCert(net, w, v, Last(full)) && line <= full
  }

  /** Any two such lines: one is a prefix of the other. */
  lemma {:induction false} FinalComparable(net: Net, w: World, a: seq<Hash>, b: seq<Hash>)
    requires ValidNet(net) && Inv(net, w) && Final(net, w, a) && Final(net, w, b) && Line(net, w, a) && Line(net, w, b)
    ensures a <= b || b <= a
  {
    if a != [net.genesis] && b != [net.genesis] {
      var v: nat, full :| Leads(net, w, a, v, full);
      var v': nat, full' :| Leads(net, w, b, v', full');
      FinalLinesComparable(net, w, v, full, v', full');
    }
  }

  lemma {:induction false} FinalGrows(net: Net, w: World, w': World, line: seq<Hash>)
    requires w.cast <= w'.cast && Final(net, w, line)
    ensures Final(net, w', line)
  {
    if line != [net.genesis] {
      var v: nat, full :| Leads(net, w, line, v, full);
      LineGrows(net, w, w', full);
      LCertGrows(net, w, w', v, Last(full));
      assert Leads(net, w', line, v, full);
    }
  }

  // ---- one replica's chain -------------------------------------------------

  ghost function HeightAt(net: Net, line: seq<Hash>, k: nat): nat
    requires k < |line|
  {
    if k == 0 then 0 else HeightOf(net, line[k])
  }

  /** The chain holds exactly the blocks of the line, each at its own height. */
  ghost predicate Holds(net: Net, chain: map<nat, Hash>, staged: set<nat>, line: seq<Hash>) {
    && (forall k | 0 <= k < |line| :: HeightAt(net, line, k) in chain && chain[HeightAt(net, line, k)] == line[k])
    && (forall h | h in chain :: exists k | 0 <= k < |line| :: HeightAt(net, line, k) == h)
    && staged == chain.Keys - {0}
  }

  lemma {:induction false} HoldsValues(net: Net, chain: map<nat, Hash>, staged: set<nat>, line: seq<Hash>, b: Hash)
    requires Holds(net, chain, staged, line)
    ensures b in chain.Values <==> b in line
  {
    if b in chain.Values {
      var h :| h in chain && chain[h] == b;
      var k :| 0 <= k < |line| && HeightAt(net, line, k) == h;
    }
    if b in line {
      var k :| 0 <= k < |line| && line[k] == b;
      assert HeightAt(net, line, k) in chain;
    }
  }

  /** The walk from a block of a longer line stops where the chain's own line ends, or at a missing header. */
  lemma {:induction false} WalkLine(
    net: Net, w: World, chain: map<nat, Hash>, staged: set<nat>, blocks: map<Hash, Placed>, full: seq<Hash>, m: nat,
    k: nat, seen: set<Hash>)
    requires HeadersBind(net) && BlocksNamed(net, blocks) && Line(net, w, full) && 0 < m <= k + 1 <= |full|
    requires Holds(net, chain, staged, full[..m]) && (forall b | b in seen :: b in full[k + 1..])
    ensures Walk(chain, blocks, full[k], seen).Missing? || Walk(chain, blocks, full[k], seen) == Found(full[m..k + 1])
    decreases k
  {
    HoldsValues(net, chain, staged, full[..m], full[k]);
    if k + 1 == m {
      assert full[..m][k] == full[k] && full[m..k + 1] == [];
    } else {
      NotBefore(net, w, full, m, k);
      NotAfter(net, w, full, k);
      if full[k] in blocks {
        assert Child(net, w, full[k - 1], full[k]);
        NamedOnce(net, full[k], blocks[full[k]].header);
        SeenMore(full, k, seen);
        WalkLine(net, w, chain, staged, blocks, full, m, k - 1, seen + {full[k]});
        assert full[m..k + 1] == full[m..k] + [full[k]];
      }
    }
  }

  lemma {:induction false} NotBefore(net: Net, w: World, full: seq<Hash>, m: nat, k: nat)
    requires Line(net, w, full) && m <= k < |full|
    ensures full[k] !in full[..m]
  {
    forall i | 0 <= i < m ensures full[..m][i] != full[k] { LineDistinct(net, w, full, i, k); }
  }

  lemma {:induction false} NotAfter(net: Net, w: World, full: seq<Hash>, k: nat)
    requires Line(net, w, full) && k < |full|
    ensures full[k] !in full[k + 1..]
  {
    forall i | k < i < |full| ensures full[i] != full[k] { LineDistinct(net, w, full, k, i); }
  }

  lemma SeenMore(full: seq<Hash>, k: nat, seen: set<Hash>)
    requires 0 < k < |full| && forall b | b in seen :: b in full[k + 1..]
    ensures forall b | b in seen + {full[k]} :: b in full[k..]
  {
  }

  /** Nothing already on the chain is replaced. */
  lemma {:induction false} FillKeeps(
    chain: map<nat, Hash>, staged: set<nat>, blocks: map<Hash, Placed>, path: seq<Hash>)
    requires AllPlaced(blocks, path)
    ensures SubMap(chain, Fill(chain, staged, blocks, path).chain)
    decreases |path|
  {
    if path != [] {
      var block, height := path[0], blocks[path[0]].header.height;
      FillKeeps(chain, staged, blocks, path[1..]);
      FillKeeps(chain[height := block], staged + {height}, blocks, path[1..]);
    }
  }

  /** One more block of the line at a free height. */
  lemma {:induction false} HoldsOne(net: Net, chain: map<nat, Hash>, staged: set<nat>, line: seq<Hash>, b: Hash)
    requires Holds(net, chain, staged, line) && line != [] && HeightOf(net, b) !in chain
    ensures Holds(net, chain[HeightOf(net, b) := b], staged + {HeightOf(net, b)}, line + [b])
  {
    var longer, h, more := line + [b], HeightOf(net, b), chain[HeightOf(net, b) := b];
    assert HeightAt(net, line, 0) in chain;
    forall k | 0 <= k < |longer|
      ensures HeightAt(net, longer, k) in more && more[HeightAt(net, longer, k)] == longer[k]
    {
      if k < |line| { assert HeightAt(net, longer, k) == HeightAt(net, line, k); }
    }
    forall g | g in more ensures exists k | 0 <= k < |longer| :: HeightAt(net, longer, k) == g {
      if g == h {
        assert HeightAt(net, longer, |line|) == g;
      } else {
        var k :| 0 <= k < |line| && HeightAt(net, line, k) == g;
        assert HeightAt(net, longer, k) == g;
      }
    }
  }

  /** Filling in the rest of a line leaves the chain holding a longer prefix of it. */
  lemma {:induction false} FillLine(
    net: Net, w: World, chain: map<nat, Hash>, staged: set<nat>, blocks: map<Hash, Placed>, full: seq<Hash>, m: nat)
    returns (n: nat)
    requires HeadersBind(net) && BlocksNamed(net, blocks) && Line(net, w, full) && 0 < m <= |full|
    requires Holds(net, chain, staged, full[..m]) && AllPlaced(blocks, full[m..])
    ensures m <= n <= |full|
    ensures var f := Fill(chain, staged, blocks, full[m..]); Holds(net, f.chain, f.staged, full[..n])
    decreases |full| - m
  {
    n := m;
    if m < |full| {
      var b, path := full[m], full[m..];
      assert path[0] == b && path[1..] == full[m + 1..];
      NamedOnce(net, b, blocks[b].header);
      var h := HeightOf(net, b);
      NotBefore(net, w, full, m, m);
      HoldsValues(net, chain, staged, full[..m], b);
      if h !in chain {
        HoldsOne(net, chain, staged, full[..m], b);
        assert full[..m + 1] == full[..m] + [b];
        n := FillLine(net, w, chain[h := b], staged + {h}, blocks, full, m + 1);
      }
    }
  }

  // ---- every chain, over every run -----------------------------------------

  /** The replica's chain is a finalized line. */
  ghost predicate Chained(net: Net, w: World, r: Replica) {
    exists line :: ChainedBy(net, w, r, line)
  }

  ghost predicate ChainedBy(net: Net, w: World, r: Replica, line: seq<Hash>) {
    Line(net, w, line) && Final(net, w, line) && Holds(net, r.chain, r.staged, line)
  }

  lemma {:induction false} FinalizeHeld(net: Net, r: Replica, v: nat, b: Hash, line: seq<Hash>)
    requires Holds(net, r.chain, r.staged, line) && b in line
    ensures Walk(r.chain, r.blocks, b, {}) == Found([])
    ensures Finalize(r, v, b).chain == r.chain && Finalize(r, v, b).staged == r.staged
  {
    HoldsValues(net, r.chain, r.staged, line, b);
  }

  /** Finalizing an L-notarized block keeps the chain a finalized line, and its walk returns. */
  lemma {:induction false} FinalizeChained(net: Net, w: World, r: Replica, v: nat, b: Hash)
    requires ValidNet(net) && Inv(net, w) && BlocksNamed(net, r.blocks) && Chained(net, w, r) && LCert(net, w, v, b)
    ensures Walk(r.chain, r.blocks, b, {}) != Loops
    ensures Chained(net, w, Finalize(r, v, b))
  {
    var line :| ChainedBy(net, w, r, line);
    LIsM(net, w, v, b);
    var full := LineTo(net, w, v, b);
    assert Leads(net, w, full, v, full);
    FinalComparable(net, w, line, full);
    if full <= line {
      assert line[|full| - 1] == b;
      FinalizeHeld(net, r, v, b, line);
      SameChain(net, w, r, Finalize(r, v, b));
    } else {
      FinalizeLonger(net, w, r, v, b, line, full);
    }
  }

  /** What finalizing leaves of the chain: itself, or itself with the walked path filled in. */
  lemma {:induction false} FinalizeChain(r: Replica, v: nat, b: Hash)
    ensures var f, walked := Finalize(r, v, b), Walk(r.chain, r.blocks, b, {});
            || (f.chain == r.chain && f.staged == r.staged)
            || (&& walked.Found? && AllPlaced(r.blocks, walked.path)
                && f.chain == Fill(r.chain, r.staged, r.blocks, walked.path).chain
                && f.staged == Fill(r.chain, r.staged, r.blocks, walked.path).staged)
  {
    WalkPlaced(r.chain, r.blocks, b, {});
  }

  lemma {:induction false} FinalizeLonger(
    net: Net, w: World, r: Replica, v: nat, b: Hash, line: seq<Hash>, full: seq<Hash>)
    requires ValidNet(net) && BlocksNamed(net, r.blocks) && ChainedBy(net, w, r, line)
    requires Line(net, w, full) && Last(full) == b && LCert(net, w, v, b) && line <= full
    ensures Walk(r.chain, r.blocks, b, {}) != Loops
    ensures Chained(net, w, Finalize(r, v, b))
  {
    var m, f := |line|, Finalize(r, v, b);
    assert full[..m] == line;
    WalkLine(net, w, r.chain, r.staged, r.blocks, full, m, |full| - 1, {});
    FinalizeChain(r, v, b);
    if f.chain == r.chain && f.staged == r.staged {
      assert ChainedBy(net, w, f, line);
    } else {
      ToTheEnd(full, m);
      FilledChained(net, w, r, f, v, full, m);
    }
  }

  lemma ToTheEnd(full: seq<Hash>, m: nat)
    requires m <= |full|
    ensures full[m..|full|] == full[m..]
  {
  }

  lemma {:induction false} FilledChained(
    net: Net, w: World, r: Replica, f: Replica, v: nat, full: seq<Hash>, m: nat)
    requires ValidNet(net) && BlocksNamed(net, r.blocks) && Line(net, w, full) && LCert(net, w, v, Last(full))
    requires 0 < m <= |full| && Holds(net, r.chain, r.staged, full[..m]) && AllPlaced(r.blocks, full[m..])
    requires f.chain == Fill(r.chain, r.staged, r.blocks, full[m..]).chain
    requires f.staged == Fill(r.chain, r.staged, r.blocks, full[m..]).staged
    ensures Chained(net, w, f)
  {
    var n := FillLine(net, w, r.chain, r.staged, r.blocks, full, m);
    LinePrefix(net, w, full, n);
    assert Leads(net, w, full[..n], v, full);
    assert ChainedBy(net, w, f, full[..n]);
  }

  lemma {:induction false} ChainedGrows(net: Net, w: World, w': World, r: Replica)
    requires w.cast <= w'.cast && Chained(net, w, r)
    ensures Chained(net, w', r)
  {
    var line :| ChainedBy(net, w, r, line);
    LineGrows(net, w, w', line);
    FinalGrows(net, w, w', line);
    assert ChainedBy(net, w', r, line);
  }

  lemma {:induction false} SameChain(net: Net, w: World, r: Replica, r': Replica)
    requires Chained(net, w, r) && r'.chain == r.chain && r'.staged == r.staged
    ensures Chained(net, w, r')
  {
    var line :| ChainedBy(net, w, r, line);
    assert ChainedBy(net, w, r', line);
  }

  lemma {:induction false} TakenChained(net: Net, w: World, r: Replica, v: nat, b: Hash, large: bool)
    requires ValidNet(net) && Inv(net, w) && Stocked(net, r) && Chained(net, w, r) && (large ==> LCert(net, w, v, b))
    ensures Chained(net, w, Taken(r, v, b, large))
  {
    var stored := Store(r, v, Notarized(b, large));
    StoreFrame(r, v, Notarized(b, large));
    SameChain(net, w, r, stored);
    if large { FinalizeChained(net, w, stored, v, b); }
  }

  /** A late verdict's walk returns too. */
  lemma {:induction false} LateChained(net: Net, w: World, r: Replica, v: nat, b: Hash)
    requires ValidNet(net) && Inv(net, w) && InOrder(net, w, r) && Chained(net, w, r)
    requires Confirms(net.sha, r, v, b, true) && v in r.proofs && r.proofs[v] == Notarized(b, true)
    ensures Chained(net, w, Finalize(Kept(r, v, b), v, b)) && Walk(r.chain, Kept(r, v, b).blocks, b, {}) != Loops
  {
    var kept := Kept(r, v, b);
    SameChain(net, w, r, kept);
    assert Names(net, b, r.pending[v].header);
    assert Backed(net, w, v, r.proofs[v]);
    FinalizeChained(net, w, kept, v, b);
  }

  lemma {:induction false} JudgedChained(net: Net, w: World, r: Replica, v: nat, b: Hash, valid: bool)
    requires ValidNet(net) && Inv(net, w) && InOrder(net, w, r) && Chained(net, w, r)
    ensures Chained(net, w, Judged(net.sha, net.genesis, r, v, b, valid))
  {
    if Late(net.sha, r, v, b, valid) {
      JudgedLate(net.sha, net.genesis, r, v, b, valid);
      LateChained(net, w, r, v, b);
    } else {
      JudgedInTime(net.sha, net.genesis, r, v, b, valid);
      SameChain(net, w, r, Judged(net.sha, net.genesis, r, v, b, valid));
    }
  }

  lemma {:induction false} ActedChained(net: Net, w: World, a: Action)
    requires ValidNet(net) && Inv(net, w) && Enabled(net, w, a) && Chained(net, w, w.replicas[a.i])
    ensures Chained(net, w, Acted(net, w.replicas[a.i], a))
  {
    var r := w.replicas[a.i];
    assert InOrder(net, w, r);
    match a
    case TakeNotarization(_, view, block, signers) =>
      var large := Weight(net.Members(), signers) >= net.committee.L();
      if large { assert NotarizeQuorum(net, w, view, block, signers, net.committee.L()); }
      TakenChained(net, w, r, view, block, large);
    case Verdict(_, view, block, valid) => JudgedChained(net, w, r, view, block, valid);
    case _ =>
      QuietTip(net, r, a);
      SameChain(net, w, r, Acted(net, r, a));
  }

  ghost predicate AllChained(net: Net, w: World) {
    forall i | net.Honest(i) && i in w.replicas :: Chained(net, w, w.replicas[i])
  }

  lemma {:induction false} StepChained(net: Net, w: World, a: Action)
    requires ValidNet(net) && Inv(net, w) && Enabled(net, w, a) && AllChained(net, w)
    ensures AllChained(net, Apply(net, w, a))
  {
    var w' := Apply(net, w, a);
    StepFrame(net, w, a);
    ActedChained(net, w, a);
    forall i | net.Honest(i) && i in w'.replicas ensures Chained(net, w', w'.replicas[i]) {
      ChainedGrows(net, w, w', w'.replicas[i]);
    }
  }

  lemma {:induction false} StartChained(net: Net)
    ensures AllChained(net, Start(net))
  {
    var w, line := Start(net), [net.genesis];
    forall i | net.Honest(i) && i in w.replicas ensures Chained(net, w, w.replicas[i]) {
      assert HeightAt(net, line, 0) == 0;
      assert ChainedBy(net, w, w.replicas[i], line);
    }
  }

  /** After every run, every honest replica's chain is a finalized line: genesis, then blocks each after its
      parent, leading up to an L-notarized block, each at the height its header names. */
  lemma {:induction false} RunChained(net: Net, actions: seq<Action>)
    requires ValidNet(net) && Run(net, actions)
    ensures AllChained(net, After(net, actions))
  {
    if actions == [] {
      StartChained(net);
    } else {
      var init := actions[..|actions| - 1];
      RunChained(net, init);
      RunInv(net, init);
      StepChained(net, After(net, init), actions[|actions| - 1]);
    }
  }

  /** A replica that takes part in the run. */
  ghost predicate Takes(net: Net, actions: seq<Action>, i: nat) {
    ValidNet(net) && Run(net, actions) && net.Honest(i) && i in After(net, actions).replicas
  }

  /** Over every run, two honest replicas never hold different blocks at one height. */
  lemma {:induction false} OneBlockPerHeight(net: Net, actions: seq<Action>, i: nat, j: nat, h: nat)
    requires Takes(net, actions, i) && Takes(net, actions, j)
    requires h in After(net, actions).replicas[i].chain && h in After(net, actions).replicas[j].chain
    ensures After(net, actions).replicas[i].chain[h] == After(net, actions).replicas[j].chain[h]
  {
    var w := After(net, actions);
    RunInv(net, actions);
    RunChained(net, actions);
    var a :| ChainedBy(net, w, w.replicas[i], a);
    var b :| ChainedBy(net, w, w.replicas[j], b);
    FinalComparable(net, w, a, b);
    if a <= b { SameAtHeight(net, w.replicas[i], a, w.replicas[j], b, h); }
    else { SameAtHeight(net, w.replicas[j], b, w.replicas[i], a, h); }
  }

  lemma {:induction false} SameAtHeight(net: Net, r: Replica, a: seq<Hash>, q: Replica, b: seq<Hash>, h: nat)
    requires Holds(net, r.chain, r.staged, a) && Holds(net, q.chain, q.staged, b) && a <= b
    requires h in r.chain && h in q.chain
    ensures r.chain[h] == q.chain[h]
  {
    var k :| 0 <= k < |a| && HeightAt(net, a, k) == h;
    assert HeightAt(net, b, k) == h;
  }

  /** Over every run, the blocks two honest replicas hold lie on one chain. */
  lemma {:induction false} ChainsAgree(net: Net, actions: seq<Action>, i: nat, b: Hash, j: nat, c: Hash)
    requires Takes(net, actions, i) && Takes(net, actions, j)
    requires b in After(net, actions).replicas[i].chain.Values && c in After(net, actions).replicas[j].chain.Values
    ensures Descends(net, After(net, actions), b, c) || Descends(net, After(net, actions), c, b)
  {
    var w := After(net, actions);
    RunInv(net, actions);
    RunChained(net, actions);
    var x :| ChainedBy(net, w, w.replicas[i], x);
    var y :| ChainedBy(net, w, w.replicas[j], y);
    FinalComparable(net, w, x, y);
    HoldsValues(net, w.replicas[i].chain, w.replicas[i].staged, x, b);
    HoldsValues(net, w.replicas[j].chain, w.replicas[j].staged, y, c);
    if x <= y { OnOneLine(net, w, y, b, c); } else { OnOneLine(net, w, x, b, c); }
  }

  lemma {:induction false} OnOneLine(net: Net, w: World, line: seq<Hash>, b: Hash, c: Hash)
    requires Line(net, w, line) && b in line && c in line
    ensures Descends(net, w, b, c) || Descends(net, w, c, b)
  {
    var m :| 0 <= m < |line| && line[m] == b;
    var n :| 0 <= n < |line| && line[n] == c;
    if m <= n { LinePath(net, w, line, m, n); } else { LinePath(net, w, line, n, m); }
  }

  /** Over every run, the chain of an honest replica is closed under parents and ends below an L-notarized
      block: whatever is finalized has all its ancestors finalized. */
  lemma {:induction false} AncestorsFinalized(net: Net, actions: seq<Action>, i: nat, b: Hash)
    requires Takes(net, actions, i) && b in After(net, actions).replicas[i].chain.Values && b != net.genesis
    ensures ParentOf(net, b) in After(net, actions).replicas[i].chain.Values
    ensures exists v: nat, c :: LCert(net, After(net, actions), v, c) && Descends(net, After(net, actions), c, b)
  {
    var w := After(net, actions);
    var r := w.replicas[i];
    RunChained(net, actions);
    var line :| ChainedBy(net, w, r, line);
    HoldsValues(net, r.chain, r.staged, line, b);
    var k :| 0 <= k < |line| && line[k] == b;
    assert Child(net, w, line[k - 1], line[k]);
    HoldsValues(net, r.chain, r.staged, line, line[k - 1]);
    var v: nat, full :| Leads(net, w, line, v, full);
    LinePath(net, w, full, k, |full| - 1);
    assert full[k] == b;
  }

  /** Over every run, the walk of `consensus_finalize` returns, for every block it can be started on. */
  lemma {:induction false} WalkReturns(net: Net, actions: seq<Action>, i: nat, v: nat, b: Hash)
    requires Takes(net, actions, i)
    ensures var w := After(net, actions);
            LCert(net, w, v, b) ==> Walk(w.replicas[i].chain, w.replicas[i].blocks, b, {}) != Loops
    ensures var r := After(net, actions).replicas[i];
            Confirms(net.sha, r, v, b, true) && v in r.proofs && r.proofs[v] == Notarized(b, true) ==>
              Walk(r.chain, Kept(r, v, b).blocks, b, {}) != Loops
  {
    var w := After(net, actions);
    RunInv(net, actions);
    RunChained(net, actions);
    assert InOrder(net, w, w.replicas[i]);
    var r := w.replicas[i];
    if LCert(net, w, v, b) { FinalizeChained(net, w, r, v, b); }
    if Confirms(net.sha, r, v, b, true) && v in r.proofs && r.proofs[v] == Notarized(b, true) {
      LateChained(net, w, r, v, b);
    }
  }

  // ---- runs that finalize --------------------------------------------------

  function HonestSet(net: Net): set<nat> { set i | 0 <= i < |net.Members()| && i !in net.byzantine }

  /** The honest members alone reach L. */
  lemma {:induction false} HonestReachL(net: Net)
    requires ValidNet(net)
    ensures Weight(net.Members(), HonestSet(net)) >= net.committee.L()
  {
    WeightInclusionExclusion(net.Members(), HonestSet(net), net.byzantine);
    WeightOfAll(net.Members(), HonestSet(net) + net.byzantine);
  }

  /** A fresh replica that has verified and notarized this block in view 0. */
  function FirstVote(net: Net, h: Header): Replica {
    var block := BlockHash(net.sha, h);
    NewReplica(net.genesis).(notarized := Some(block), seen := map[0 := block], blocks := map[block := Placed(0, h)])
  }

  lemma {:induction false} VotesFirst(net: Net, h: Header)
    requires h.parent == net.genesis
    ensures var block, p, start := BlockHash(net.sha, h), Proposal(h, None), NewReplica(net.genesis);
            var waiting := Buffered(net.committee, net.sha, net.genesis, start, 0, p);
            && Votes(net.sha, net.genesis, waiting, 0, block, true)
            && Judged(net.sha, net.genesis, waiting, 0, block, true) == FirstVote(net, h)
  {
    var p := Proposal(h, None);
    assert map[0 := p] - {0} == map[];
  }

  /** Members 0 to n - 1, as far as honest, have notarized the block in view 0; the others are untouched. */
  ghost predicate VotedUpTo(net: Net, w: World, h: Header, n: nat) {
    && Total(net, w)
    && (forall k: nat | net.Honest(k) && k < n ::
          Notarize(0, BlockHash(net.sha, h), k) in w.cast && w.replicas[k] == FirstVote(net, h))
    && (forall k: nat | net.Honest(k) && k >= n :: w.replicas[k] == NewReplica(net.genesis))
  }

  lemma {:induction false} RunOn(net: Net, actions: seq<Action>, a: Action)
    requires Run(net, actions) && Enabled(net, After(net, actions), a)
    ensures Run(net, actions + [a]) && After(net, actions + [a]) == Apply(net, After(net, actions), a)
  {
    assert (actions + [a])[..|actions|] == actions;
  }

  /** Then member n has the proposal waiting. */
  ghost predicate OneWaiting(net: Net, w: World, h: Header, n: nat) {
    && Total(net, w) && net.Honest(n)
    && (forall k: nat | net.Honest(k) && k < n ::
          Notarize(0, BlockHash(net.sha, h), k) in w.cast && w.replicas[k] == FirstVote(net, h))
    && (forall k: nat | net.Honest(k) && k > n :: w.replicas[k] == NewReplica(net.genesis))
    && w.replicas[n] == Buffered(net.committee, net.sha, net.genesis, NewReplica(net.genesis), 0, Proposal(h, None))
  }

  lemma ProposeTo(net: Net, w: World, h: Header, n: nat)
    requires h in net.headers && net.Honest(n) && VotedUpTo(net, w, h, n)
    ensures Enabled(net, w, Propose(n, 0, Proposal(h, None)))
    ensures OneWaiting(net, Apply(net, w, Propose(n, 0, Proposal(h, None))), h, n)
  {
  }

  lemma {:induction false} VerdictTo(net: Net, w: World, h: Header, n: nat)
    requires h.parent == net.genesis && OneWaiting(net, w, h, n)
    ensures VotedUpTo(net, Apply(net, w, Verdict(n, 0, BlockHash(net.sha, h), true)), h, n + 1)
  {
    VotesFirst(net, h);
  }

  /** Member n is shown the proposal, hears the verdict, and votes. */
  lemma {:induction false} VoteOne(net: Net, h: Header, n: nat, actions: seq<Action>) returns (more: seq<Action>)
    requires ValidNet(net) && h in net.headers && h.parent == net.genesis && net.Honest(n)
    requires Run(net, actions) && VotedUpTo(net, After(net, actions), h, n)
    ensures Run(net, more) && VotedUpTo(net, After(net, more), h, n + 1)
  {
    ProposeTo(net, After(net, actions), h, n);
    RunOn(net, actions, Propose(n, 0, Proposal(h, None)));
    more := actions + [Propose(n, 0, Proposal(h, None))];
    VerdictTo(net, After(net, more), h, n);
    RunOn(net, more, Verdict(n, 0, BlockHash(net.sha, h), true));
    more := more + [Verdict(n, 0, BlockHash(net.sha, h), true)];
  }

  lemma {:induction false} VoteAll(net: Net, h: Header, n: nat) returns (actions: seq<Action>)
    requires ValidNet(net) && h in net.headers && h.parent == net.genesis && n <= |net.Members()|
    ensures Run(net, actions) && VotedUpTo(net, After(net, actions), h, n)
    decreases n
  {
    if n == 0 {
      actions := [];
    } else {
      actions := VoteAll(net, h, n - 1);
      if net.Honest(n - 1) { actions := VoteOne(net, h, n - 1, actions); }
    }
  }

  /** Finalizing the first block puts it at its height, unless that is genesis's. */
  lemma {:induction false} FinalizeFirst(net: Net, h: Header, r: Replica)
    requires HeadersBind(net) && h in net.headers && h.parent == net.genesis
    requires r.tip == None && r.chain == map[0 := net.genesis] && r.staged == {}
    requires r.blocks == map[BlockHash(net.sha, h) := Placed(0, h)]
    ensures var block := BlockHash(net.sha, h);
            Finalize(r, 0, block).chain == if h.height == 0 then r.chain else r.chain[h.height := block]
  {
    var block := BlockHash(net.sha, h);
    assert Names(net, block, h);
    NamedOnce(net, block, h);
    assert r.chain[0] == net.genesis;
    assert block !in r.chain.Values && net.genesis in r.chain.Values;
    assert Walk(r.chain, r.blocks, net.genesis, {} + {block}) == Found([]);
    assert Walk(r.chain, r.blocks, block, {}) == Found([block]);
    FillFirst(r.chain, r.blocks, block, h.height);
  }

  lemma {:induction false} FillFirst(chain: map<nat, Hash>, blocks: map<Hash, Placed>, block: Hash, height: nat)
    requires block in blocks && blocks[block].header.height == height && chain.Keys == {0} && chain[0] != block
    ensures Fill(chain, {}, blocks, [block]).chain == if height == 0 then chain else chain[height := block]
  {
    assert [block][0] == block && [block][1..] == [];
  }

  /** The rules are not vacuous: any proposed block on genesis can be finalized by the honest members alone, at
      any of them, in view 0; it is then on the chain at the height its header names, unless that is 0. */
  lemma {:induction false} HonestRunFinalizes(net: Net, h: Header, i: nat) returns (actions: seq<Action>)
    requires ValidNet(net) && h in net.headers && h.parent == net.genesis && net.Honest(i)
    ensures Run(net, actions) && i in After(net, actions).replicas
    ensures var chain, block := After(net, actions).replicas[i].chain, BlockHash(net.sha, h);
            chain == if h.height == 0 then map[0 := net.genesis] else map[0 := net.genesis][h.height := block]
  {
    var votes := VoteAll(net, h, |net.Members()|);
    var block := BlockHash(net.sha, h);
    var w, all := After(net, votes), HonestSet(net);
    HonestReachL(net);
    var take := TakeNotarization(i, 0, block, all);
    assert NotarizeQuorum(net, w, 0, block, all, net.committee.M());
    RunOn(net, votes, take);
    actions := votes + [take];
    FinalizeFirst(net, h, Store(FirstVote(net, h), 0, Notarized(block, true)));
  }
}

/** Choosing the worker to promote (crates/cluster-operator/src/candidate.rs). */
module Candidate {
  import opened Common
  import opened Crd

  function PhaseOf(n: PiNode): NodePhase {
    n.status.GetOr(DEFAULT_STATUS).phase
  }

  function DiskOf(n: PiNode): DiskState {
    n.status.GetOr(DEFAULT_STATUS).disk
  }

  predicate Eligible(n: PiNode) {
    n.spec.role == Worker && (PhaseOf(n) == Ready || PhaseOf(n) == Discovered) && !DiskOf(n).Error?
  }

  function Score(n: PiNode): int {
    100 + (if PhaseOf(n) == Ready then 50 else 0) + (if DiskOf(n) == MountedGfs then 20 else 0)
  }

  /** Node i is the leftmost of the eligible nodes with the highest score. */
  ghost predicate IsBest(nodes: seq<PiNode>, i: nat) {
    && i < |nodes|
    && Eligible(nodes[i])
    && (forall j | 0 <= j < |nodes| :: Eligible(nodes[j]) ==> Score(nodes[j]) <= Score(nodes[i]))
    && (forall j | 0 <= j < i :: Eligible(nodes[j]) ==> Score(nodes[j]) < Score(nodes[i]))
  }

  function BestIndex(nodes: seq<PiNode>): (r: Option<nat>)
    ensures r.Some? ==> IsBest(nodes, r.value)
    ensures r.None? ==> forall j | 0 <= j < |nodes| :: !Eligible(nodes[j])
  {
    if nodes == [] then None
    else
      var n := |nodes| - 1;
      var r := BestIndex(nodes[..n]);
      if Eligible(nodes[n]) && (r.None? || Score(nodes[n]) > Score(nodes[r.value])) then Some(n) else r
  }

  lemma BestIsUnique(nodes: seq<PiNode>, i: nat)
    requires IsBest(nodes, i)
    ensures BestIndex(nodes) == Some(i)
  {
    var r := BestIndex(nodes);
    assert r.Some?;
    assert IsBest(nodes, r.value);
  }

  // ----------------------------------------------- what the choice prefers

  /** The node's phase; a node that never reported counts as just discovered. */
  predicate InPhase(n: PiNode, phase: NodePhase) {
    match n.status
    case None => phase == Discovered
    case Some(s) => s.phase == phase
  }

  predicate OnGfs(n: PiNode) {
    n.status.Some? && n.status.value.disk == MountedGfs
  }

  predicate DiskInError(n: PiNode) {
    n.status.Some? && n.status.value.disk.Error?
  }

  /** A worker that may be promoted. */
  predicate Promotable(n: PiNode) {
    n.spec.role == Worker && (InPhase(n, Ready) || InPhase(n, Discovered)) && !DiskInError(n)
  }

  /** The two nodes agree on readiness and on having GFS storage. */
  predicate Alike(a: PiNode, b: PiNode) {
    InPhase(a, Ready) == InPhase(b, Ready) && OnGfs(a) == OnGfs(b)
  }

  /**
    Readiness counts first, then GFS storage, then position: node i is a
    promotable worker that is ready if any is, has GFS storage if any of its
    readiness has, and is the leftmost of those.
   */
  ghost predicate Preferred(nodes: seq<PiNode>, i: nat) {
    && i < |nodes| && Promotable(nodes[i])
    && (forall j | 0 <= j < |nodes| && Promotable(nodes[j]) :: InPhase(nodes[j], Ready) ==> InPhase(nodes[i], Ready))
    && (forall j | 0 <= j < |nodes| && Promotable(nodes[j]) && InPhase(nodes[j], Ready) == InPhase(nodes[i], Ready) ::
          OnGfs(nodes[j]) ==> OnGfs(nodes[i]))
    && (forall j | 0 <= j < i && Promotable(nodes[j]) :: !Alike(nodes[j], nodes[i]))
  }

  lemma EligibleIsPromotable(n: PiNode)
    ensures Eligible(n) <==> Promotable(n)
  {
  }

  /** A score orders by readiness first and by GFS storage second. */
  lemma ScoreOrder(a: PiNode, b: PiNode)
    ensures Score(a) <= Score(b) <==>
            || (InPhase(b, Ready) && !InPhase(a, Ready))
            || (InPhase(a, Ready) == InPhase(b, Ready) && (OnGfs(a) ==> OnGfs(b)))
    ensures Score(a) == Score(b) <==> Alike(a, b)
  {
  }

  /** The greatest score belongs to exactly the preferred node. */
  lemma BestIffPreferred(nodes: seq<PiNode>, i: nat)
    ensures IsBest(nodes, i) <==> Preferred(nodes, i)
  {
    if i < |nodes| {
      EligibleIsPromotable(nodes[i]);
      forall j | 0 <= j < |nodes|
        ensures Eligible(nodes[j]) <==> Promotable(nodes[j])
        ensures Score(nodes[j]) <= Score(nodes[i]) <==>
                || (InPhase(nodes[i], Ready) && !InPhase(nodes[j], Ready))
                || (InPhase(nodes[j], Ready) == InPhase(nodes[i], Ready) && (OnGfs(nodes[j]) ==> OnGfs(nodes[i])))
        ensures Score(nodes[j]) == Score(nodes[i]) <==> Alike(nodes[j], nodes[i])
      {
        EligibleIsPromotable(nodes[j]);
        ScoreOrder(nodes[j], nodes[i]);
      }
    }
  }

  // ------------------------------------------------- filter, sort, take head

  datatype Scored = Scored(node: PiNode, score: int)

  function Candidates(nodes: seq<PiNode>): seq<Scored> {
    if nodes == [] then []
    else
      var init, last := nodes[..|nodes| - 1], nodes[|nodes| - 1];
      if Eligible(last) then Candidates(init) + [Scored(last, Score(last))] else Candidates(init)
  }

  ghost predicate Descending(cs: seq<Scored>) {
    forall i, j | 0 <= i < j < |cs| :: cs[i].score >= cs[j].score
  }

  /** The candidates of one score, in order. */
  ghost function WithScore(cs: seq<Scored>, s: int): seq<Scored> {
    if cs == [] then []
    else (if cs[0].score == s then [cs[0]] else []) + WithScore(cs[1..], s)
  }

  /** A stable sort by descending score: ordered, and within each score nothing moved, appeared or vanished. */
  ghost predicate StablySorted(input: seq<Scored>, sorted: seq<Scored>) {
    Descending(sorted) && forall s :: WithScore(sorted, s) == WithScore(input, s)
  }

  lemma {:induction false} WithScoreConcat(a: seq<Scored>, b: seq<Scored>, s: int)
    ensures WithScore(a + b, s) == WithScore(a, s) + WithScore(b, s)
  {
    if a == [] {
      assert a + b == b;
    } else {
      var head := if a[0].score == s then [a[0]] else [];
      assert (a + b)[0] == a[0] && (a + b)[1..] == a[1..] + b;
      WithScoreConcat(a[1..], b, s);
      assert WithScore(a + b, s) == head + WithScore(a[1..] + b, s);
      assert WithScore(a, s) == head + WithScore(a[1..], s);
    }
  }

  lemma {:induction false} WithScoreMember(cs: seq<Scored>, k: nat)
    requires k < |cs|
    ensures cs[k] in WithScore(cs, cs[k].score)
  {
    if k > 0 {
      WithScoreMember(cs[1..], k - 1);
    }
  }

  lemma {:induction false} WithScoreSound(cs: seq<Scored>, s: int)
    ensures forall c | c in WithScore(cs, s) :: c in cs && c.score == s
  {
    if cs != [] {
      WithScoreSound(cs[1..], s);
    }
  }

  lemma {:induction false} WithScoreAbsent(cs: seq<Scored>, s: int)
    requires forall c | c in cs :: c.score != s
    ensures WithScore(cs, s) == []
  {
    if cs != [] {
      WithScoreAbsent(cs[1..], s);
    }
  }

  lemma {:induction false} CandidatesAreEligible(nodes: seq<PiNode>)
    ensures forall c | c in Candidates(nodes) ::
              exists j :: 0 <= j < |nodes| && c == Scored(nodes[j], Score(nodes[j])) && Eligible(nodes[j])
  {
    if nodes != [] {
      var n := |nodes| - 1;
      CandidatesAreEligible(nodes[..n]);
      forall c | c in Candidates(nodes)
        ensures exists j :: 0 <= j < |nodes| && c == Scored(nodes[j], Score(nodes[j])) && Eligible(nodes[j])
      {
        if c in Candidates(nodes[..n]) {
          var j :| 0 <= j < n && c == Scored(nodes[..n][j], Score(nodes[..n][j])) && Eligible(nodes[..n][j]);
          assert nodes[j] == nodes[..n][j];
        } else {
          assert c == Scored(nodes[n], Score(nodes[n]));
        }
      }
    }
  }

  /** The first candidate of the best score is the leftmost best node. */
  lemma {:induction false} FirstOfBestScore(nodes: seq<PiNode>)
    requires BestIndex(nodes).Some?
    ensures var best := nodes[BestIndex(nodes).value];
            var same := WithScore(Candidates(nodes), Score(best));
            same != [] && same[0] == Scored(best, Score(best))
  {
    var n := |nodes| - 1;
    var init, last := nodes[..n], nodes[n];
    var best := nodes[BestIndex(nodes).value];
    var c := Scored(last, Score(last));
    WithScoreConcat(Candidates(init), [c], Score(best));
    if BestIndex(nodes) == BestIndex(init) {
      FirstOfBestScore(init);
    } else {
      CandidatesAreEligible(init);
      WithScoreAbsent(Candidates(init), Score(best));
      assert WithScore([c], c.score) == [c];
    }
  }

  /**
    Whatever stable sort is used, its head is the leftmost best node, and there
    is none only if no node is eligible.
   */
  lemma StableSortHeadIsLeftmostBest(nodes: seq<PiNode>, sorted: seq<Scored>)
    requires StablySorted(Candidates(nodes), sorted)
    ensures sorted == [] <==> BestIndex(nodes).None?
    ensures sorted != [] ==> sorted[0].node == nodes[BestIndex(nodes).value]
  {
    var best := BestIndex(nodes);
    if best.Some? {
      FirstOfBestScore(nodes);
      var s := Score(nodes[best.value]);
      assert WithScore(sorted, s) == WithScore(Candidates(nodes), s);
      WithScoreSound(sorted, s);
      assert WithScore(sorted, s)[0] in WithScore(sorted, s);
    }
    if sorted != [] {
      var top := sorted[0].score;
      WithScoreMember(sorted, 0);
      assert WithScore(sorted, top) == WithScore(Candidates(nodes), top);
      WithScoreSound(Candidates(nodes), top);
      CandidatesAreEligible(nodes);
      assert sorted[0] in Candidates(nodes);
      var s := Score(nodes[best.value]);
      assert top <= s;
      assert exists k :: 0 <= k < |sorted| && sorted[k].score == s by {
        WithScoreSound(sorted, s);
        assert WithScore(sorted, s)[0] in sorted;
      }
      assert top == s;
      assert WithScore(sorted, s)[0] == sorted[0];
    }
  }

  function InsertStable(sorted: seq<Scored>, c: Scored): seq<Scored> {
    if sorted == [] || sorted[0].score < c.score then [c] + sorted
    else [sorted[0]] + InsertStable(sorted[1..], c)
  }

  lemma {:induction false} InsertKeepsStability(sorted: seq<Scored>, c: Scored, s: int)
    requires Descending(sorted)
    ensures Descending(InsertStable(sorted, c))
    ensures forall d | d in InsertStable(sorted, c) :: d == c || d in sorted
    ensures WithScore(InsertStable(sorted, c), s) == WithScore(sorted, s) + WithScore([c], s)
  {
    if sorted == [] || sorted[0].score < c.score {
      assert ([c] + sorted)[1..] == sorted;
      if s == c.score {
        WithScoreAbsent(sorted, s);
      }
    } else {
      InsertKeepsStability(sorted[1..], c, s);
      assert InsertStable(sorted, c)[1..] == InsertStable(sorted[1..], c);
    }
  }

  method StableSortDescending(input: seq<Scored>) returns (sorted: seq<Scored>)
    ensures StablySorted(input, sorted)
  {
    sorted := [];
    for k := 0 to |input|
      invariant StablySorted(input[..k], sorted)
    {
      var c := input[k];
      forall s ensures WithScore(InsertStable(sorted, c), s) == WithScore(input[..k + 1], s) {
        InsertKeepsStability(sorted, c, s);
        WithScoreConcat(input[..k], [c], s);
        assert input[..k + 1] == input[..k] + [c];
      }
      InsertKeepsStability(sorted, c, 0);
      sorted := InsertStable(sorted, c);
    }
    assert input[..|input|] == input;
  }

  method SelectBestCandidate(nodes: seq<PiNode>) returns (r: Option<PiNode>)
    ensures r.None? <==> forall j | 0 <= j < |nodes| :: !Promotable(nodes[j])
    ensures r.Some? ==> exists i: nat :: Preferred(nodes, i) && r.value == nodes[i]
    ensures r == (if BestIndex(nodes).Some? then Some(nodes[BestIndex(nodes).value]) else None)
  {
    var candidates: seq<Scored> := [];
    for k := 0 to |nodes|
      invariant candidates == Candidates(nodes[..k])
    {
      var node := nodes[k];
      assert nodes[..k + 1][..k] == nodes[..k];
      if node.spec.role != Worker {
        continue;
      }
      var phase := node.status.GetOr(DEFAULT_STATUS).phase;
      if phase != Ready && phase != Discovered {
        continue;
      }
      var disk := node.status.GetOr(DEFAULT_STATUS).disk;
      if disk.Error? {
        continue;
      }
      var score := 100;
      if phase == Ready {
        score := score + 50;
      }
      if disk == MountedGfs {
        score := score + 20;
      }
      candidates := candidates + [Scored(node, score)];
    }
    assert nodes[..|nodes|] == nodes;
    var sorted := StableSortDescending(candidates);
    StableSortHeadIsLeftmostBest(nodes, sorted);
    forall j | 0 <= j < |nodes| ensures Eligible(nodes[j]) <==> Promotable(nodes[j]) {
      EligibleIsPromotable(nodes[j]);
    }
    if BestIndex(nodes).Some? {
      BestIffPreferred(nodes, BestIndex(nodes).value);
    }
    r := if sorted != [] then Some(sorted[0].node) else None;
  }
}

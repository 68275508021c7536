/**
 Drawing the panel of an appeal: who is on it, who is not, and when an appeal can be opened at all.
 */
module AppealPanels {
  import opened Basics
  import opened Ordering
  import opened AppealQuorum
  import opened StakingTiers
  import opened DisputeTables
  import opened DisputeInvariants
  import opened DisputeFrames
  import opened WeightedDraw

  /** An active validator with enough stake that did not sign the verdict of the session. */
  ghost predicate MayReview(t: Tables, c: Config, s: string, id: Id) {
    && !(s in t.verdicts && id in t.verdicts[s])
    && exists v :: 0 <= v < |t.validators| && t.validators[v].id == id && t.validators[v].isActive
                   && TierOf(t.validators[v].stake, c.minStakeWei).weight > 0
  }

  function Pool(t: Tables, c: Config, s: string): seq<Candidate> {
    Filter(FindEligible(StakedRows(t.validators), c.minStakeWei), AllowedBy(Signers(t, s)))
  }

  /** The pool a panel is drawn from: distinct, active, staked validators that did not sign. */
  lemma PoolMembers(t: Tables, c: Config, s: string)
    requires ValidatorsOk(t.validators, c)
    ensures DistinctIds(Pool(t, c, s))
    ensures forall cand :: cand in Pool(t, c, s) ==> MayReview(t, c, s, cand.id)
  {
    var rows := StakedRows(t.validators);
    var active := Filter(rows, IsActive);
    var cs := Candidates(active, c.minStakeWei);
    var keep := AllowedBy(Signers(t, s));
    assert DistinctRows(rows) by {
      forall i, j | 0 <= i < j < |rows| ensures RowId(rows[i]) != RowId(rows[j]) {
        assert t.validators[i].id != t.validators[j].id;
      }
    }
    FilterKeepsDistinct(rows, IsActive, RowId);
    CandidatesDistinct(active, c.minStakeWei);
    FilterKeepsDistinct(cs, HasWeight, CandidateId);
    FilterKeepsDistinct(Filter(cs, HasWeight), keep, CandidateId);
    forall cand | cand in Filter(Filter(cs, HasWeight), keep) ensures MayReview(t, c, s, cand.id) {
      assert keep(cand) && cand in Filter(cs, HasWeight) && HasWeight(cand) && cand in cs;
      var k :| 0 <= k < |active| && cs[k] == cand;
      assert active[k] in active && active[k] in rows;
      var v :| 0 <= v < |rows| && rows[v] == active[k];
      assert t.validators[v].id == cand.id;
      SignersAre(t, s, cand.id);
    }
  }

  /** A committee is who signed the verdict; without a verdict, or with a small one, it counts as three. */
  lemma SignersAre(t: Tables, s: string, id: Id)
    ensures id in Signers(t, s) <==> s in t.verdicts && id in t.verdicts[s]
    ensures CommitteeSize(t, s) == if |Signers(t, s)| < 3 then 3 else |Signers(t, s)|
  {
  }

  /** Nobody who may review is missing from the pool. */
  lemma ReviewersInPool(t: Tables, c: Config, s: string, id: Id) returns (cand: Candidate)
    requires MayReview(t, c, s, id)
    ensures cand in Pool(t, c, s) && cand.id == id && cand.weight > 0
  {
    var rows := StakedRows(t.validators);
    var active := Filter(rows, IsActive);
    var cs := Candidates(active, c.minStakeWei);
    var v :| 0 <= v < |t.validators| && t.validators[v].id == id && t.validators[v].isActive
             && TierOf(t.validators[v].stake, c.minStakeWei).weight > 0;
    assert rows[v] in rows && IsActive(rows[v]) && rows[v] in active;
    var k :| 0 <= k < |active| && active[k] == rows[v];
    cand := cs[k];
    SignersAre(t, s, id);
    assert cand in cs && HasWeight(cand) && cand in Filter(cs, HasWeight) && AllowedBy(Signers(t, s))(cand);
  }

  ghost predicate AreReviewers(t: Tables, c: Config, s: string, ids: seq<Id>) {
    && (forall i, j :: 0 <= i < j < |ids| ==> ids[i] != ids[j])
    && (forall i :: 0 <= i < |ids| ==> MayReview(t, c, s, ids[i]))
  }

  /** Distinct reviewers that outnumber the committee they review. */
  ghost predicate Independent(t: Tables, c: Config, s: string, panel: seq<Id>) {
    Seated(t, c, s, panel) && |panel| > CommitteeSize(t, s)
  }

  /** Distinct reviewers, as many as configured, or all there are. */
  ghost predicate Seated(t: Tables, c: Config, s: string, panel: seq<Id>) {
    var size := AppealPanelSize(CommitteeSize(t, s), c.panelMultiplier);
    && AreReviewers(t, c, s, panel)
    && |panel| <= size
    && (|panel| < size ==> forall id :: MayReview(t, c, s, id) ==> id in panel)
  }

  /** The draw seats distinct reviewers, and leaves a seat empty only when every reviewer has one. */
  lemma DrawSeatsReviewers(t: Tables, c: Config, d: Id, s: string)
    requires ValidatorsOk(t.validators, c)
    ensures Seated(t, c, s, DrawPanel(t, c, d, s))
  {
    DrawnMayReview(t, c, d, s);
    if |DrawPanel(t, c, d, s)| < AppealPanelSize(CommitteeSize(t, s), c.panelMultiplier) {
      forall id | MayReview(t, c, s, id) ensures id in DrawPanel(t, c, d, s) {
        NobodyLeftOut(t, c, d, s, id);
      }
    }
  }

  lemma DrawnMayReview(t: Tables, c: Config, d: Id, s: string)
    requires ValidatorsOk(t.validators, c)
    ensures AreReviewers(t, c, s, DrawPanel(t, c, d, s))
    ensures |DrawPanel(t, c, d, s)| <= AppealPanelSize(CommitteeSize(t, s), c.panelMultiplier)
  {
    var panel, pool := DrawPanel(t, c, d, s), Pool(t, c, s);
    PoolMembers(t, c, s);
    SelectionIsFair(pool, AppealPanelSize(CommitteeSize(t, s), c.panelMultiplier), "appeal:" + d, c.draw);
    forall i | 0 <= i < |panel| ensures MayReview(t, c, s, panel[i]) {
      assert panel[i] in panel;
      var cand :| cand in pool && cand.id == panel[i] && cand.weight > 0;
    }
  }

  lemma NobodyLeftOut(t: Tables, c: Config, d: Id, s: string, id: Id)
    requires ValidatorsOk(t.validators, c) && MayReview(t, c, s, id)
    requires |DrawPanel(t, c, d, s)| < AppealPanelSize(CommitteeSize(t, s), c.panelMultiplier)
    ensures id in DrawPanel(t, c, d, s)
  {
    PoolMembers(t, c, s);
    var cand := ReviewersInPool(t, c, s, id);
    var size := AppealPanelSize(CommitteeSize(t, s), c.panelMultiplier);
    SelectionTakesAll(Pool(t, c, s), size, "appeal:" + d, c.draw, cand);
  }

  /** An appeal that opens has a panel of distinct independent reviewers that outnumber the committee. */
  lemma PanelIsIndependent(t: Tables, c: Config, d: Id, now: int)
    requires Inv(t, c)
    ensures var (t', reply) := OpenAppeal(t, c, d, now);
            reply.Done? ==>
              && |t'.appeals| == |t.appeals| + 1 && d in t.disputes
              && Independent(t, c, t.disputes[d].sessionId, t'.appeals[|t.appeals|].panel)
  {
    if OpenAppeal(t, c, d, now).1.Done? {
      OpenAppealShape(t, c, d, now);
      DrawSeatsReviewers(t, c, d, t.disputes[d].sessionId);
    }
  }

  /** What makes a dispute appealable: resolved, with an outcome, never appealed before, within the window. */
  ghost predicate Appealable(t: Tables, c: Config, d: Id, now: int) {
    && d in t.disputes
    && (forall a :: 0 <= a < |t.appeals| ==> t.appeals[a].disputeId != d)
    && t.disputes[d].status == Resolved && t.disputes[d].outcome.Some?
    && (t.disputes[d].resolvedAt.Some? ==> now <= t.disputes[d].resolvedAt.value + c.appealWindowMs)
  }

  lemma AppealableExactly(t: Tables, c: Config, d: Id, now: int)
    ensures AppealRefusal(t, c, d, now) == None <==> Appealable(t, c, d, now)
  {
    var found := FindAppeal(t.appeals, d);
    if found.Some? {
      assert t.appeals[found.value].disputeId == d;
    }
  }

  /** More reviewers than the committee has members. */
  ghost predicate Enough(t: Tables, c: Config, s: string) {
    exists ids :: |ids| == CommitteeSize(t, s) + 1 && AreReviewers(t, c, s, ids)
  }

  /** An appeal opens if and only if the dispute is appealable and more validators than signed may review. */
  lemma AppealOpensExactly(t: Tables, c: Config, d: Id, now: int)
    requires ValidatorsOk(t.validators, c)
    ensures OpenAppeal(t, c, d, now).1.Done? <==>
            Appealable(t, c, d, now) && Enough(t, c, t.disputes[d].sessionId)
  {
    AppealableExactly(t, c, d, now);
    if Appealable(t, c, d, now) {
      var s := t.disputes[d].sessionId;
      PanelIsLargeExactly(t, c, d, s);
    }
  }

  lemma PanelIsLargeExactly(t: Tables, c: Config, d: Id, s: string)
    requires ValidatorsOk(t.validators, c)
    ensures |DrawPanel(t, c, d, s)| > CommitteeSize(t, s) <==> Enough(t, c, s)
  {
    DrawSeatsReviewers(t, c, d, s);
    LargeIsEnough(t, c, s, DrawPanel(t, c, d, s));
  }

  lemma LargeIsEnough(t: Tables, c: Config, s: string, panel: seq<Id>)
    requires Seated(t, c, s, panel)
    ensures |panel| > CommitteeSize(t, s) <==> Enough(t, c, s)
  {
    var n := CommitteeSize(t, s);
    if |panel| > n {
      assert |panel[..n + 1]| == n + 1 && AreReviewers(t, c, s, panel[..n + 1]);
    } else if Enough(t, c, s) {
      var ids :| |ids| == n + 1 && AreReviewers(t, c, s, ids);
      assert forall i :: 0 <= i < |ids| ==> ids[i] in panel;
      DistinctWithin(ids, panel);
    }
  }

  /** A reviewer sits on the panel exactly if fewer reviewers than there are seats are faster in the draw seeded with
      the dispute. */
  lemma SeatedExactly(t: Tables, c: Config, d: Id, s: string, cand: Candidate)
    requires ValidatorsOk(t.validators, c) && cand in Pool(t, c, s)
    ensures cand.id in DrawPanel(t, c, d, s) <==>
            |Rivals(Pool(t, c, s), cand, "appeal:" + d, c.draw)|
            < AppealPanelSize(CommitteeSize(t, s), c.panelMultiplier)
  {
    PoolMembers(t, c, s);
    var size := AppealPanelSize(CommitteeSize(t, s), c.panelMultiplier);
    assert HasWeight(cand);
    DrawnExactly(Pool(t, c, s), cand, size, "appeal:" + d, c.draw);
  }
}

/**
 Staking tiers and the weighted committee draw
 (src/modules/validators/staking-tiers.ts, validators.service.ts).
 */
module StakingTiers {
  import opened Basics
  import opened Ordering

  datatype StakingTier = Unstaked | Bronze | Silver | Gold | Platinum

  datatype TierDefinition = TierDefinition(tier: StakingTier, minStakeWei: int, weight: nat)

  const NO_TIER := TierDefinition(Unstaked, 0, 0)

  datatype TableResult = Table(rows: seq<TierDefinition>) | MinimumStakeNotPositive

  /** Thresholds are multiples of the minimum stake, from the lowest tier up. */
  function BuildTierTable(minStakeWei: int): TableResult {
    if minStakeWei <= 0 then MinimumStakeNotPositive
    else Table([
      TierDefinition(Bronze, minStakeWei, 1),
      TierDefinition(Silver, minStakeWei * 5, 2),
      TierDefinition(Gold, minStakeWei * 20, 4),
      TierDefinition(Platinum, minStakeWei * 100, 8)
    ])
  }

  /** The last definition of the table that the stake reaches. */
  function LastReached(stakeWei: int, table: seq<TierDefinition>): TierDefinition {
    if table == [] then NO_TIER
    else if stakeWei >= table[|table| - 1].minStakeWei then table[|table| - 1]
    else LastReached(stakeWei, table[..|table| - 1])
  }

  method TierForStake(stakeWei: int, table: seq<TierDefinition>) returns (matched: TierDefinition)
    ensures matched == LastReached(stakeWei, table)
  {
    matched := NO_TIER;
    for i := 0 to |table|
      invariant matched == LastReached(stakeWei, table[..i])
    {
      assert table[..i + 1][..i] == table[..i];
      if stakeWei >= table[i].minStakeWei {
        matched := table[i];
      }
    }
    assert table[..|table|] == table;
  }

  /** Tier of a stake under a table built for a (positive) minimum stake. */
  function TierOf(stakeWei: int, minStakeWei: int): TierDefinition {
    var built := BuildTierTable(minStakeWei);
    if built.Table? then LastReached(stakeWei, built.rows) else NO_TIER
  }

  /** The thresholds: a tier is held from its own minimum up to the next one. */
  lemma TierThresholds(stakeWei: int, m: int)
    requires m > 0
    ensures TierOf(stakeWei, m).tier == Unstaked <==> stakeWei < m
    ensures TierOf(stakeWei, m).tier == Bronze <==> m <= stakeWei < 5 * m
    ensures TierOf(stakeWei, m).tier == Silver <==> 5 * m <= stakeWei < 20 * m
    ensures TierOf(stakeWei, m).tier == Gold <==> 20 * m <= stakeWei < 100 * m
    ensures TierOf(stakeWei, m).tier == Platinum <==> 100 * m <= stakeWei
  {
    var t := BuildTierTable(m).rows;
    assert t[..3][..2] == t[..2] && t[..2][..1] == t[..1] && t[..1][..0] == [];
    assert LastReached(stakeWei, t[..1]) == if stakeWei >= m then t[0] else NO_TIER;
    assert LastReached(stakeWei, t[..2]) == if stakeWei >= 5 * m then t[1] else LastReached(stakeWei, t[..1]);
    assert LastReached(stakeWei, t[..3]) == if stakeWei >= 20 * m then t[2] else LastReached(stakeWei, t[..2]);
  }

  lemma TierWeight(stakeWei: int, m: int)
    requires m > 0
    ensures TierOf(stakeWei, m).weight ==
            match TierOf(stakeWei, m).tier
            case Unstaked => 0
            case Bronze => 1
            case Silver => 2
            case Gold => 4
            case Platinum => 8
  {
    var t := BuildTierTable(m).rows;
    assert t[..3][..2] == t[..2] && t[..2][..1] == t[..1] && t[..1][..0] == [];
    assert LastReached(stakeWei, t[..1]) == if stakeWei >= m then t[0] else NO_TIER;
    assert LastReached(stakeWei, t[..2]) == if stakeWei >= 5 * m then t[1] else LastReached(stakeWei, t[..1]);
    assert LastReached(stakeWei, t[..3]) == if stakeWei >= 20 * m then t[2] else LastReached(stakeWei, t[..2]);
  }

  /** More stake never means less weight in the draw. */
  lemma WeightIsMonotone(low: int, high: int, m: int)
    requires m > 0 && low <= high
    ensures TierOf(low, m).weight <= TierOf(high, m).weight
  {
    TierThresholds(low, m);
    TierThresholds(high, m);
    TierWeight(low, m);
    TierWeight(high, m);
  }

  // ---------------------------------------------------------------- the draw

  datatype Candidate = Candidate(id: Id, weight: int)

  /** -ln(u) for the uniform number u in (0, 1) hashed from the seed and the id. */
  type Draw = (string, Id) -> real

  ghost predicate PositiveDraw(draw: Draw) {
    forall seed, id :: draw(seed, id) > 0.0
  }

  function Key(c: Candidate, seed: string, draw: Draw): real {
    if c.weight > 0 then draw(seed, c.id) / c.weight as real else 0.0
  }

  /** Smaller key first; equal keys by id. */
  function DrawnBefore(seed: string, draw: Draw): (Candidate, Candidate) -> bool {
    (a: Candidate, b: Candidate) =>
      Key(a, seed, draw) < Key(b, seed, draw)
      || (Key(a, seed, draw) == Key(b, seed, draw) && IdBefore(a.id, b.id))
  }

  predicate HasWeight(c: Candidate) { c.weight > 0 }

  /** The candidates that can be drawn, in the order they are drawn. */
  function Ranking(candidates: seq<Candidate>, seed: string, draw: Draw): seq<Candidate> {
    Sort(Filter(candidates, HasWeight), DrawnBefore(seed, draw))
  }

  function Take<T>(xs: seq<T>, count: int): seq<T> {
    if count <= 0 then [] else if count >= |xs| then xs else xs[..count]
  }

  function IdsOf(cs: seq<Candidate>): (r: seq<Id>) {
    seq(|cs|, i requires 0 <= i < |cs| => cs[i].id)
  }

  function SelectWeighted(candidates: seq<Candidate>, count: int, seed: string, draw: Draw): seq<Id> {
    if count <= 0 then [] else IdsOf(Take(Ranking(candidates, seed, draw), count))
  }

  function CandidateId(c: Candidate): Id { c.id }

  ghost predicate DistinctIds(cs: seq<Candidate>) { DistinctBy(cs, CandidateId) }

  lemma DrawnBeforeIsStrict(seed: string, draw: Draw)
    ensures StrictOrder(DrawnBefore(seed, draw))
  {
    var before := DrawnBefore(seed, draw);
    forall x: Candidate ensures !before(x, x) {
      IdBeforeIsTotal(x.id, x.id);
    }
    forall x: Candidate, y: Candidate, z: Candidate | before(x, y) && before(y, z) ensures before(x, z) {
      if Key(x, seed, draw) == Key(y, seed, draw) == Key(z, seed, draw) {
        IdBeforeIsTransitive(x.id, y.id, z.id);
      }
    }
  }

  lemma DistinctIdsSeparate(cs: seq<Candidate>, seed: string, draw: Draw)
    requires DistinctIds(cs)
    ensures Separates(DrawnBefore(seed, draw), cs)
  {
    forall i, j | 0 <= i < j < |cs|
      ensures DrawnBefore(seed, draw)(cs[i], cs[j]) || DrawnBefore(seed, draw)(cs[j], cs[i])
    {
      assert CandidateId(cs[i]) != CandidateId(cs[j]);
      IdBeforeIsTotal(cs[i].id, cs[j].id);
    }
  }

  lemma DrawIsSeparated(cs: seq<Candidate>, seed: string, draw: Draw)
    requires DistinctIds(cs)
    ensures StrictOrder(DrawnBefore(seed, draw))
    ensures Separates(DrawnBefore(seed, draw), Filter(cs, HasWeight))
  {
    DrawnBeforeIsStrict(seed, draw);
    FilterKeepsDistinct(cs, HasWeight, CandidateId);
    DistinctIdsSeparate(Filter(cs, HasWeight), seed, draw);
  }

  /** The committee does not depend on the order the candidates arrive in. */
  lemma SelectionIsCanonical(xs: seq<Candidate>, ys: seq<Candidate>, count: int, seed: string, draw: Draw)
    requires DistinctIds(xs) && multiset(xs) == multiset(ys)
    ensures SelectWeighted(xs, count, seed, draw) == SelectWeighted(ys, count, seed, draw)
  {
    DrawIsSeparated(xs, seed, draw);
    FilterPermutation(xs, ys, HasWeight);
    SortIsCanonical(Filter(xs, HasWeight), Filter(ys, HasWeight), DrawnBefore(seed, draw));
  }

  /** The ranking holds exactly the weighted candidates, each once. */
  lemma RankingMembers(cs: seq<Candidate>, seed: string, draw: Draw)
    requires DistinctIds(cs)
    ensures var ranked := Ranking(cs, seed, draw);
            && |ranked| == |Filter(cs, HasWeight)|
            && DistinctIds(ranked)
            && forall c :: c in ranked <==> c in cs && c.weight > 0
  {
    var pool := Filter(cs, HasWeight);
    SortMembers(pool, DrawnBefore(seed, draw));
    FilterKeepsDistinct(cs, HasWeight, CandidateId);
    DistinctPermutation(pool, Ranking(cs, seed, draw), CandidateId);
  }

  /** Nobody is drawn twice, only weighted candidates are drawn, and seats are left empty only
      when the candidates run out. */
  lemma SelectionIsFair(cs: seq<Candidate>, count: int, seed: string, draw: Draw)
    requires DistinctIds(cs)
    ensures var s := SelectWeighted(cs, count, seed, draw);
            && (forall i, j :: 0 <= i < j < |s| ==> s[i] != s[j])
            && (forall id :: id in s ==> exists c :: c in cs && c.id == id && c.weight > 0)
            && |s| == (if count <= 0 then 0
                       else if count < |Filter(cs, HasWeight)| then count
                       else |Filter(cs, HasWeight)|)
  {
    RankingMembers(cs, seed, draw);
    Seats(Ranking(cs, seed, draw), count);
  }

  /** Seating the head of a ranking. */
  lemma Seats(ranked: seq<Candidate>, count: int)
    requires DistinctIds(ranked)
    ensures var s := if count <= 0 then [] else IdsOf(Take(ranked, count));
            && (forall i, j :: 0 <= i < j < |s| ==> s[i] != s[j])
            && (forall id :: id in s ==> exists c :: c in ranked && c.id == id)
            && |s| == (if count <= 0 then 0 else if count < |ranked| then count else |ranked|)
  {
    var s := if count <= 0 then [] else IdsOf(Take(ranked, count));
    assert forall i :: 0 <= i < |s| ==> s[i] == CandidateId(ranked[i]);
    forall id | id in s ensures exists c :: c in ranked && c.id == id {
      var i :| 0 <= i < |s| && s[i] == id;
      assert ranked[i] in ranked;
    }
  }

  /** A draw that does not fill its seats takes every weighted candidate. */
  lemma SelectionTakesAll(cs: seq<Candidate>, count: int, seed: string, draw: Draw, c: Candidate)
    requires DistinctIds(cs) && c in cs && c.weight > 0
    ensures |SelectWeighted(cs, count, seed, draw)| < count ==> c.id in SelectWeighted(cs, count, seed, draw)
  {
    RankingMembers(cs, seed, draw);
    var ranked, s := Ranking(cs, seed, draw), SelectWeighted(cs, count, seed, draw);
    Seats(ranked, count);
    if |s| < count {
      var i :| 0 <= i < |ranked| && ranked[i] == c;
      assert s[i] == c.id;
    }
  }

  /** A smaller draw is a prefix of every larger one. */
  lemma SelectionIsPrefix(cs: seq<Candidate>, few: int, many: int, seed: string, draw: Draw)
    requires few <= many
    ensures SelectWeighted(cs, few, seed, draw) <= SelectWeighted(cs, many, seed, draw)
  {
    FewerSeats(Ranking(cs, seed, draw), few, many);
  }

  lemma FewerSeats(ranked: seq<Candidate>, few: int, many: int)
    requires few <= many
    ensures (if few <= 0 then [] else IdsOf(Take(ranked, few))) <= (if many <= 0 then [] else IdsOf(Take(ranked, many)))
  {
  }

  predicate Allowed(c: Candidate, banned: set<Id>) { c.id !in banned }

  function AllowedBy(banned: set<Id>): Candidate -> bool { (c: Candidate) => Allowed(c, banned) }

  /** Leaving people out before the draw is the same as skipping them in the full ranking. */
  lemma ExcludingBeforeOrAfter(cs: seq<Candidate>, banned: set<Id>, count: int, seed: string, draw: Draw)
    requires DistinctIds(cs)
    ensures SelectWeighted(Filter(cs, AllowedBy(banned)), count, seed, draw)
         == IdsOf(Take(Filter(Ranking(cs, seed, draw), AllowedBy(banned)), count))
  {
    var keep := AllowedBy(banned);
    DrawIsSeparated(cs, seed, draw);
    FilterSwap(cs, HasWeight, keep);
    SortOfFilter(Filter(cs, HasWeight), keep, DrawnBefore(seed, draw));
  }

  lemma {:induction false} FilterSwap<T(!new)>(xs: seq<T>, p: T -> bool, q: T -> bool)
    ensures Filter(Filter(xs, p), q) == Filter(Filter(xs, q), p)
  {
    if xs != [] {
      FilterSwap(xs[1..], p, q);
      FilterAppend(if p(xs[0]) then [xs[0]] else [], Filter(xs[1..], p), q);
      FilterAppend(if q(xs[0]) then [xs[0]] else [], Filter(xs[1..], q), p);
    }
  }

  /** A seat within the first `count` means fewer than `count` candidates are ahead. */
  lemma SeatMeansRank(cs: seq<Candidate>, c: Candidate, count: int, seed: string, draw: Draw)
    requires DistinctIds(cs) && c in cs && c.weight > 0
    ensures c.id in SelectWeighted(cs, count, seed, draw)
       <==> Ahead(Filter(cs, HasWeight), c, DrawnBefore(seed, draw)) < count
  {
    var pool := Filter(cs, HasWeight);
    var ranked := Ranking(cs, seed, draw);
    DrawIsSeparated(cs, seed, draw);
    RankInSort(pool, c, DrawnBefore(seed, draw));
    RankingMembers(cs, seed, draw);
    InTheTop(ranked, Ahead(pool, c, DrawnBefore(seed, draw)), count);
  }

  lemma InTheTop(ranked: seq<Candidate>, place: nat, count: int)
    requires DistinctIds(ranked) && place < |ranked|
    ensures ranked[place].id in IdsOf(Take(ranked, count)) <==> place < count
  {
    var s := IdsOf(Take(ranked, count));
    assert forall i :: 0 <= i < |s| ==> s[i] == CandidateId(ranked[i]);
    if place < count {
      assert s[place] == ranked[place].id;
    }
  }

  /** The pool with candidate `k` made heavier: same places, nobody new ahead of `k`. */
  lemma HeavierRanksNoWorse(cs: seq<Candidate>, k: nat, w: int, seed: string, draw: Draw)
    requires PositiveDraw(draw) && k < |cs| && 0 < cs[k].weight <= w
    ensures Ahead(Filter(cs[k := cs[k].(weight := w)], HasWeight), cs[k].(weight := w), DrawnBefore(seed, draw))
         <= Ahead(Filter(cs, HasWeight), cs[k], DrawnBefore(seed, draw))
  {
    var before := DrawnBefore(seed, draw);
    var lighter, heavier := cs[k], cs[k].(weight := w);
    var p := FilterUpdate(cs, k, heavier, HasWeight);
    var pool := Filter(cs, HasWeight);
    var pool' := pool[p := heavier];
    HeavierKey(lighter, w, seed, draw);
    DrawnBeforeIsStrict(seed, draw);
    forall i | 0 <= i < |pool| && before(pool'[i], heavier) ensures before(pool[i], lighter) {
      assert i != p;
    }
    AheadImproves(pool, lighter, pool', heavier, before);
  }

  lemma HeavierKey(c: Candidate, w: int, seed: string, draw: Draw)
    requires PositiveDraw(draw) && 0 < c.weight <= w
    ensures Key(c.(weight := w), seed, draw) <= Key(c, seed, draw)
  {
    var d, a, b := draw(seed, c.id), c.weight as real, w as real;
    assert d > 0.0 && 0.0 < a <= b;
    var ka, kb := d / a, d / b;
    assert ka * a == d && kb * b == d;
    assert ka > 0.0;
    assert ka * b >= ka * a;
    assert kb <= ka;
  }

  // ------------------------------------------------- eligible validator rows

  /** What committee selection reads of a validator row. */
  datatype StakedRow = StakedRow(id: Id, stake: int, isActive: bool)

  function CandidateOf(row: StakedRow, minStakeWei: int): Candidate {
    Candidate(row.id, TierOf(row.stake, minStakeWei).weight)
  }

  function Candidates(rows: seq<StakedRow>, minStakeWei: int): (r: seq<Candidate>)
    ensures |r| == |rows|
  {
    seq(|rows|, i requires 0 <= i < |rows| => CandidateOf(rows[i], minStakeWei))
  }

  predicate IsActive(row: StakedRow) { row.isActive }

  /** Active rows with the weight of their tier, without the weightless ones. */
  function FindEligible(rows: seq<StakedRow>, minStakeWei: int): seq<Candidate> {
    Filter(Candidates(Filter(rows, IsActive), minStakeWei), HasWeight)
  }

  function RowId(row: StakedRow): Id { row.id }

  ghost predicate DistinctRows(rows: seq<StakedRow>) { DistinctBy(rows, RowId) }

  lemma {:induction false} FilterTwice<T(!new)>(xs: seq<T>, p: T -> bool)
    ensures Filter(Filter(xs, p), p) == Filter(xs, p)
  {
    if xs != [] {
      FilterTwice(xs[1..], p);
      FilterAppend(if p(xs[0]) then [xs[0]] else [], Filter(xs[1..], p), p);
    }
  }

  /** Raising a weight among the candidates. */
  lemma HeavierKeepsSeat(cs: seq<Candidate>, p: nat, w: int, count: int, seed: string, draw: Draw)
    requires PositiveDraw(draw) && DistinctIds(cs)
    requires p < |cs| && cs[p].weight <= w
    ensures cs[p].id in SelectWeighted(cs, count, seed, draw) ==>
            cs[p].id in SelectWeighted(cs[p := cs[p].(weight := w)], count, seed, draw)
  {
    var c' := cs[p].(weight := w);
    if cs[p].id in SelectWeighted(cs, count, seed, draw) {
      SeatedHasWeight(cs, p, count, seed, draw);
      SeatMeansRank(cs, cs[p], count, seed, draw);
      HeavierRanksNoWorse(cs, p, w, seed, draw);
      DistinctReweighted(cs, p, w);
      assert cs[p := c'][p] == c';
      SeatMeansRank(cs[p := c'], c', count, seed, draw);
    }
  }

  lemma SeatedHasWeight(cs: seq<Candidate>, p: nat, count: int, seed: string, draw: Draw)
    requires DistinctIds(cs) && p < |cs|
    ensures cs[p].id in SelectWeighted(cs, count, seed, draw) ==> cs[p].weight > 0
  {
    if cs[p].id in SelectWeighted(cs, count, seed, draw) {
      SelectionIsFair(cs, count, seed, draw);
      var d :| d in cs && d.id == cs[p].id && d.weight > 0;
      SameKeySameEntry(cs, cs[p], d, CandidateId);
    }
  }

  lemma DistinctReweighted(cs: seq<Candidate>, p: nat, w: int)
    requires DistinctIds(cs) && p < |cs|
    ensures DistinctIds(cs[p := cs[p].(weight := w)])
  {
    var cs' := cs[p := cs[p].(weight := w)];
    forall i, j | 0 <= i < j < |cs'| ensures CandidateId(cs'[i]) != CandidateId(cs'[j]) {
      assert CandidateId(cs[i]) != CandidateId(cs[j]);
    }
  }

  /** Raising a validator's stake never costs it a committee seat. */
  lemma MoreStakeKeepsSeat(rows: seq<StakedRow>, k: nat, stake: int, m: int, count: int, seed: string, draw: Draw)
    requires PositiveDraw(draw) && m > 0 && DistinctRows(rows)
    requires k < |rows| && rows[k].stake <= stake
    ensures rows[k].id in SelectWeighted(FindEligible(rows, m), count, seed, draw) ==>
            rows[k].id in SelectWeighted(FindEligible(rows[k := rows[k].(stake := stake)], m), count, seed, draw)
  {
    var raised := rows[k].(stake := stake);
    EligibleIsEnough(rows, m, count, seed, draw);
    EligibleIsEnough(rows[k := raised], m, count, seed, draw);
    var active := Filter(rows, IsActive);
    var cs := Candidates(active, m);
    FilterKeepsDistinct(rows, IsActive, RowId);
    CandidatesDistinct(active, m);
    SeatedIsActive(rows, k, m, count, seed, draw);
    if rows[k].isActive {
      var p := FilterUpdate(rows, k, raised, IsActive);
      WeightIsMonotone(rows[k].stake, stake, m);
      RaisedCandidate(active, p, raised, m);
      HeavierKeepsSeat(cs, p, TierOf(stake, m).weight, count, seed, draw);
    }
  }

  /** Dropping the weightless rows beforehand does not change the draw, which drops them again. */
  lemma EligibleIsEnough(rows: seq<StakedRow>, m: int, count: int, seed: string, draw: Draw)
    requires m > 0
    ensures SelectWeighted(FindEligible(rows, m), count, seed, draw)
         == SelectWeighted(Candidates(Filter(rows, IsActive), m), count, seed, draw)
  {
    FilterTwice(Candidates(Filter(rows, IsActive), m), HasWeight);
  }

  lemma RaisedCandidate(active: seq<StakedRow>, p: nat, raised: StakedRow, m: int)
    requires m > 0 && p < |active| && raised.id == active[p].id
    ensures Candidates(active[p := raised], m)
         == Candidates(active, m)[p := Candidates(active, m)[p].(weight := TierOf(raised.stake, m).weight)]
  {
  }

  lemma CandidatesDistinct(rows: seq<StakedRow>, m: int)
    requires DistinctRows(rows)
    ensures DistinctIds(Candidates(rows, m))
  {
    var cs := Candidates(rows, m);
    forall i, j | 0 <= i < j < |cs| ensures CandidateId(cs[i]) != CandidateId(cs[j]) {
      assert RowId(rows[i]) != RowId(rows[j]);
    }
  }

  lemma SeatedIsActive(rows: seq<StakedRow>, k: nat, m: int, count: int, seed: string, draw: Draw)
    requires DistinctRows(rows) && k < |rows|
    ensures rows[k].id in SelectWeighted(Candidates(Filter(rows, IsActive), m), count, seed, draw) ==> rows[k].isActive
  {
    var active := Filter(rows, IsActive);
    var cs := Candidates(active, m);
    if rows[k].id in SelectWeighted(cs, count, seed, draw) {
      FilterKeepsDistinct(rows, IsActive, RowId);
      CandidatesDistinct(active, m);
      SelectionIsFair(cs, count, seed, draw);
      var d :| d in cs && d.id == rows[k].id && d.weight > 0;
      var row := CandidateRow(active, m, d);
      SameKeySameEntry(rows, row, rows[k], RowId);
    }
  }

  /** The row a candidate was made from. */
  lemma CandidateRow(active: seq<StakedRow>, m: int, d: Candidate) returns (row: StakedRow)
    requires d in Candidates(active, m)
    ensures row in active && row.id == d.id
  {
    var i :| 0 <= i < |Candidates(active, m)| && Candidates(active, m)[i] == d;
    row := active[i];
  }
}

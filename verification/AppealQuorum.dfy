/**
 Size, quorum and tally of an appeal panel (src/modules/disputes/appeal-quorum.ts).
 */
module AppealQuorum {
  import opened Basics

  datatype AppealVoteChoice = Uphold | Overturn

  datatype AppealDecision = Upheld | Reversed

  /** A configured number: what Number(text) yields. */
  datatype Number = NaN | Num(value: real)

  /** Math.trunc: towards zero. */
  function Trunc(x: real): int {
    if x >= 0.0 then x.Floor else -((-x).Floor)
  }

  /** `Math.max(2, Math.trunc(multiplier) || 2)`: NaN and zero count as two. */
  function PanelFactor(multiplier: Number): int {
    match multiplier
    case NaN => 2
    case Num(x) => Max(2, if Trunc(x) == 0 then 2 else Trunc(x))
  }

  function AppealPanelSize(originalCommitteeSize: int, multiplier: Number): (size: int)
    ensures size > 2 * originalCommitteeSize && size >= 3
  {
    var base, factor := Max(1, originalCommitteeSize), PanelFactor(multiplier);
    assert base * factor >= base * 2;
    base * factor + 1
  }

  /** A whole multiplier of at least two counts as it is; anything that truncates to less, and what is no number,
      as two: one more than that many times the committee, of at least one member. */
  lemma PanelSizeExactly(committee: int, multiplier: Number, m: int)
    requires multiplier.Num? ==> m as real <= multiplier.value < m as real + 1.0 && m >= 0
    ensures AppealPanelSize(committee, multiplier)
         == (if committee < 1 then 1 else committee) * (if multiplier.NaN? || m < 2 then 2 else m) + 1
  {
  }

  /** The documented "and odd" holds exactly when the committee or the factor is even. */
  lemma PanelIsOddExactly(committee: int, multiplier: Number)
    ensures AppealPanelSize(committee, multiplier) % 2 == 1
       <==> Max(1, committee) % 2 == 0 || PanelFactor(multiplier) % 2 == 0
  {
    ProductIsOdd(Max(1, committee), PanelFactor(multiplier));
  }

  lemma {:induction false} ProductIsOdd(b: nat, f: nat)
    ensures b * f % 2 == 1 <==> b % 2 == 1 && f % 2 == 1
    decreases f
  {
    if f > 0 {
      ProductIsOdd(b, f - 1);
      OddStep(b * (f - 1), b, f);
      assert b * f == b * (f - 1) + b;
    }
  }

  lemma OddStep(p: int, b: nat, f: nat)
    requires p % 2 == 1 <==> b % 2 == 1 && (f - 1) % 2 == 1
    ensures (p + b) % 2 == 1 <==> b % 2 == 1 && f % 2 == 1
  {
  }

  /** A committee of three with multiplier three gets a panel of ten. */
  lemma PanelCanBeEven()
    ensures AppealPanelSize(3, Num(3.0)) == 10
  {
    assert Trunc(3.0) == 3;
  }

  /** Math.ceil(2n/3). */
  function ReversalQuorum(panelSize: nat): (quorum: nat)
    ensures 2 * panelSize <= 3 * quorum < 2 * panelSize + 3
  {
    (2 * panelSize + 2) / 3
  }

  datatype AppealTally = AppealTally(uphold: nat, overturn: nat, panelSize: nat, quorum: nat,
                                     decision: Option<AppealDecision>)

  function CountOverturn(votes: seq<AppealVoteChoice>): (n: nat)
    ensures n <= |votes|
  {
    if votes == [] then 0 else (if votes[0] == Overturn then 1 else 0) + CountOverturn(votes[1..])
  }

  function TallyAppeal(votes: seq<AppealVoteChoice>, panelSize: nat): AppealTally {
    var overturn := CountOverturn(votes);
    var uphold := |votes| - overturn;
    var quorum := ReversalQuorum(panelSize);
    var decision :=
      if overturn >= quorum then Some(Reversed)
      else if uphold > panelSize - quorum then Some(Upheld)
      else None;
    AppealTally(uphold, overturn, panelSize, quorum, decision)
  }

  /** Silence counts for the existing resolution. */
  function DecisionAtDeadline(tally: AppealTally): AppealDecision {
    if tally.overturn >= tally.quorum then Reversed else Upheld
  }

  /** The simple rule: count everything that was cast when voting closes. */
  function AtDeadline(votes: seq<AppealVoteChoice>, panelSize: nat): AppealDecision {
    DecisionAtDeadline(TallyAppeal(votes, panelSize))
  }

  lemma {:induction false} CountAppend(a: seq<AppealVoteChoice>, b: seq<AppealVoteChoice>)
    ensures CountOverturn(a + b) == CountOverturn(a) + CountOverturn(b)
  {
    if a == [] {
      assert a + b == b;
    } else {
      assert (a + b)[1..] == a[1..] + b;
      CountAppend(a[1..], b);
    }
  }

  /** The count is the number of overturn votes, however the votes are ordered. */
  lemma {:induction false} CountIsMultiplicity(votes: seq<AppealVoteChoice>)
    ensures CountOverturn(votes) == multiset(votes)[Overturn]
    ensures |votes| - CountOverturn(votes) == multiset(votes)[Uphold]
  {
    if votes != [] {
      assert votes == [votes[0]] + votes[1..];
      CountIsMultiplicity(votes[1..]);
    }
  }

  lemma {:induction false} CountRepeated(n: nat, choice: AppealVoteChoice)
    ensures CountOverturn(seq(n, i => choice)) == if choice == Overturn then n else 0
  {
    if n > 0 {
      assert seq(n, i => choice)[1..] == seq(n - 1, i => choice);
      CountRepeated(n - 1, choice);
    }
  }

  /** `more` can still be cast after `votes` by a panel of this size. */
  ghost predicate CanStillCast(votes: seq<AppealVoteChoice>, more: seq<AppealVoteChoice>, panelSize: nat) {
    |votes + more| <= panelSize
  }

  /** A tally decides exactly when nothing that can still be cast changes the deadline count. */
  lemma TallyDecidesExactly(votes: seq<AppealVoteChoice>, panelSize: nat, d: AppealDecision)
    requires |votes| <= panelSize
    ensures TallyAppeal(votes, panelSize).decision == Some(d) <==>
            forall more :: CanStillCast(votes, more, panelSize) ==> AtDeadline(votes + more, panelSize) == d
  {
    var t := TallyAppeal(votes, panelSize);
    forall more | CanStillCast(votes, more, panelSize) && t.decision == Some(d)
      ensures AtDeadline(votes + more, panelSize) == d
    {
      CountAppend(votes, more);
    }
    if t.decision != Some(d) {
      var rest := panelSize - |votes|;
      var silent: seq<AppealVoteChoice> := [];
      var against := seq(rest, i => Overturn);
      CountRepeated(rest, Overturn);
      CountAppend(votes, against);
      assert votes + silent == votes;
      assert CanStillCast(votes, silent, panelSize) && CanStillCast(votes, against, panelSize);
      assert AtDeadline(votes + silent, panelSize) != d || AtDeadline(votes + against, panelSize) != d;
    }
  }

  /** A tally is open exactly when both results can still be reached. */
  lemma OpenTallyExactly(votes: seq<AppealVoteChoice>, panelSize: nat)
    requires |votes| <= panelSize
    ensures TallyAppeal(votes, panelSize).decision == None <==>
            (exists more :: CanStillCast(votes, more, panelSize) && AtDeadline(votes + more, panelSize) == Reversed)
            && (exists more :: CanStillCast(votes, more, panelSize) && AtDeadline(votes + more, panelSize) == Upheld)
  {
    TallyDecidesExactly(votes, panelSize, Upheld);
    TallyDecidesExactly(votes, panelSize, Reversed);
    var empty: seq<AppealVoteChoice> := [];
    assert CanStillCast(votes, empty, panelSize);
  }

  /** Decided prefixes decide the whole. */
  lemma EarlyDecisionStands(votes: seq<AppealVoteChoice>, more: seq<AppealVoteChoice>, panelSize: nat)
    requires |votes + more| <= panelSize && TallyAppeal(votes, panelSize).decision.Some?
    ensures AtDeadline(votes + more, panelSize) == TallyAppeal(votes, panelSize).decision.value
  {
    TallyDecidesExactly(votes, panelSize, TallyAppeal(votes, panelSize).decision.value);
    assert CanStillCast(votes, more, panelSize);
  }

  /** The result depends on which votes are cast, not on their order. */
  lemma DeadlineIgnoresOrder(a: seq<AppealVoteChoice>, b: seq<AppealVoteChoice>, panelSize: nat)
    requires multiset(a) == multiset(b)
    ensures AtDeadline(a, panelSize) == AtDeadline(b, panelSize)
  {
    CountIsMultiplicity(a);
    CountIsMultiplicity(b);
  }
}

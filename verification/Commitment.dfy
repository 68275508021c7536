/**
 The hash a validator commits to and the count of revealed votes
 (src/modules/commit-reveal/commitment.ts).
 */
module Commitment {
  import opened Basics

  datatype VerdictOutcome = Accept | Partial | Reject

  type Bytes = seq<int>

  /** Digests are kept symbolic: what was hashed, or a hash nobody has shown a preimage for. */
  datatype Hash = Keccak256(preimage: Bytes) | OtherHash(hex: string)

  function Text(outcome: VerdictOutcome): string {
    match outcome
    case Accept => "accept"
    case Partial => "partial"
    case Reject => "reject"
  }

  /** Bytes of an ASCII string. */
  function Ascii(s: string): (b: Bytes)
    ensures |b| == |s|
  {
    seq(|s|, i requires 0 <= i < |s| => s[i] as int)
  }

  /** Non-standard packed encoding of (string, string, string, bytes32): plain concatenation. */
  function Preimage(jobId: Id, validatorId: Id, outcome: VerdictOutcome, salt: Bytes): Bytes {
    Ascii(jobId) + Ascii(validatorId) + Ascii(Text(outcome)) + salt
  }

  function ComputeCommitHash(jobId: Id, validatorId: Id, outcome: VerdictOutcome, salt: Bytes): Hash {
    Keccak256(Preimage(jobId, validatorId, outcome, salt))
  }

  /** What the request validators let through: uuids of 36 characters and a 32-byte salt. */
  predicate WellFormed(jobId: Id, validatorId: Id, salt: Bytes) {
    |jobId| == 36 && |validatorId| == 36 && |salt| == 32
  }

  lemma AsciiIsInjective(a: string, b: string)
    requires Ascii(a) == Ascii(b)
    ensures a == b
  {
    forall i | 0 <= i < |a| ensures a[i] == b[i] {
      assert Ascii(a)[i] == Ascii(b)[i];
    }
  }

  lemma TextIsInjective(a: VerdictOutcome, b: VerdictOutcome)
    requires Ascii(Text(a)) == Ascii(Text(b))
    ensures a == b
  {
    AsciiIsInjective(Text(a), Text(b));
    assert "accept"[0] != "reject"[0];
  }

  /** The packed preimage can be taken apart in one way only. */
  lemma CommitHashIsBinding(j: Id, v: Id, o: VerdictOutcome, s: Bytes, j': Id, v': Id, o': VerdictOutcome, s': Bytes)
    requires WellFormed(j, v, s) && WellFormed(j', v', s')
    requires ComputeCommitHash(j, v, o, s) == ComputeCommitHash(j', v', o', s')
    ensures j == j' && v == v' && o == o' && s == s'
  {
    var p, p' := Preimage(j, v, o, s), Preimage(j', v', o', s');
    assert p[..36] == Ascii(j) && p'[..36] == Ascii(j');
    assert p[36..72] == Ascii(v) && p'[36..72] == Ascii(v');
    assert p[72..|p| - 32] == Ascii(Text(o)) && p'[72..|p'| - 32] == Ascii(Text(o'));
    assert p[|p| - 32..] == s && p'[|p'| - 32..] == s';
    AsciiIsInjective(j, j');
    AsciiIsInjective(v, v');
    TextIsInjective(o, o');
  }

  /** Fixed-length ids are what makes it so: without them two jobs share a preimage. */
  lemma UnequalIdLengthsCollide(o: VerdictOutcome, s: Bytes)
    ensures ComputeCommitHash("ab", "c", o, s) == ComputeCommitHash("a", "bc", o, s)
  {
    assert Ascii("ab") + Ascii("c") == Ascii("a") + Ascii("bc");
  }

  // -------------------------------------------------------------------- tally

  datatype RevealedVote = RevealedVote(validatorId: Id, outcome: VerdictOutcome)

  datatype Counts = Counts(accept: nat, partial: nat, reject: nat)

  datatype Tally = Tally(outcome: Option<VerdictOutcome>, supporters: seq<Id>, counts: Counts, quorum: nat)

  function CountFor(votes: seq<RevealedVote>, o: VerdictOutcome): (n: nat)
    ensures n <= |votes|
  {
    if votes == [] then 0
    else CountFor(votes[..|votes| - 1], o) + if votes[|votes| - 1].outcome == o then 1 else 0
  }

  function CountsOf(votes: seq<RevealedVote>): Counts {
    Counts(CountFor(votes, Accept), CountFor(votes, Partial), CountFor(votes, Reject))
  }

  /** Ids of the votes that chose `o`, in order. */
  function VotersFor(votes: seq<RevealedVote>, o: VerdictOutcome): (ids: seq<Id>)
    ensures |ids| == CountFor(votes, o)
  {
    if votes == [] then []
    else
      VotersFor(votes[..|votes| - 1], o)
      + if votes[|votes| - 1].outcome == o then [votes[|votes| - 1].validatorId] else []
  }

  function Quorum(committeeSize: nat): nat { committeeSize / 2 + 1 }

  /** First outcome, in the order the record lists them, whose count reaches the quorum. */
  function Winner(counts: Counts, quorum: nat): Option<VerdictOutcome> {
    if counts.accept >= quorum then Some(Accept)
    else if counts.partial >= quorum then Some(Partial)
    else if counts.reject >= quorum then Some(Reject)
    else None
  }

  function TallyOf(votes: seq<RevealedVote>, committeeSize: nat): Tally {
    var winner := Winner(CountsOf(votes), Quorum(committeeSize));
    Tally(winner, if winner.Some? then VotersFor(votes, winner.value) else [], CountsOf(votes), Quorum(committeeSize))
  }

  method TallyReveals(votes: seq<RevealedVote>, committeeSize: nat) returns (tally: Tally)
    ensures tally == TallyOf(votes, committeeSize)
  {
    var counts := Counts(0, 0, 0);
    for i := 0 to |votes|
      invariant counts == CountsOf(votes[..i])
    {
      assert votes[..i + 1][..i] == votes[..i];
      match votes[i].outcome {
        case Accept => counts := counts.(accept := counts.accept + 1);
        case Partial => counts := counts.(partial := counts.partial + 1);
        case Reject => counts := counts.(reject := counts.reject + 1);
      }
    }
    assert votes[..|votes|] == votes;
    var quorum := committeeSize / 2 + 1;
    var winner := Winner(counts, quorum);
    var supporters := [];
    if winner.Some? {
      for i := 0 to |votes|
        invariant supporters == VotersFor(votes[..i], winner.value)
      {
        assert votes[..i + 1][..i] == votes[..i];
        if votes[i].outcome == winner.value {
          supporters := supporters + [votes[i].validatorId];
        }
      }
    }
    tally := Tally(winner, supporters, counts, quorum);
  }

  lemma {:induction false} CountsAddUp(votes: seq<RevealedVote>)
    ensures CountFor(votes, Accept) + CountFor(votes, Partial) + CountFor(votes, Reject) == |votes|
  {
    if votes != [] {
      CountsAddUp(votes[..|votes| - 1]);
    }
  }

  /** An outcome is the tally's exactly when a strict majority of the whole committee revealed it. */
  lemma OutcomeIsStrictMajority(votes: seq<RevealedVote>, committeeSize: nat, o: VerdictOutcome)
    requires |votes| <= committeeSize
    ensures TallyOf(votes, committeeSize).outcome == Some(o) <==> 2 * CountFor(votes, o) > committeeSize
  {
    CountsAddUp(votes);
  }

  lemma {:induction false} CountAppend(a: seq<RevealedVote>, b: seq<RevealedVote>, o: VerdictOutcome)
    ensures CountFor(a + b, o) == CountFor(a, o) + CountFor(b, o)
  {
    if b == [] {
      assert a + b == a;
    } else {
      assert (a + b)[..|a + b| - 1] == a + b[..|b| - 1];
      CountAppend(a, b[..|b| - 1], o);
    }
  }

  /** Once an outcome has the quorum no later reveal can give it to another. */
  lemma MajorityStands(votes: seq<RevealedVote>, more: seq<RevealedVote>, committeeSize: nat)
    requires |votes + more| <= committeeSize && TallyOf(votes, committeeSize).outcome.Some?
    ensures TallyOf(votes + more, committeeSize).outcome == TallyOf(votes, committeeSize).outcome
  {
    var o := TallyOf(votes, committeeSize).outcome.value;
    OutcomeIsStrictMajority(votes, committeeSize, o);
    CountAppend(votes, more, o);
    OutcomeIsStrictMajority(votes + more, committeeSize, o);
  }

  lemma CountWithout(b: seq<RevealedVote>, k: nat, o: VerdictOutcome)
    requires k < |b|
    ensures CountFor(b, o) == CountFor(b[..k] + b[k + 1..], o) + if b[k].outcome == o then 1 else 0
  {
    assert b == b[..k] + [b[k]] + b[k + 1..];
    CountAppend(b[..k] + [b[k]], b[k + 1..], o);
    CountAppend(b[..k], [b[k]], o);
    CountAppend(b[..k], b[k + 1..], o);
    assert [b[k]][..0] == [];
  }

  lemma LastIsSomewhere(a: seq<RevealedVote>, b: seq<RevealedVote>) returns (k: nat)
    requires a != [] && multiset(a) == multiset(b)
    ensures k < |b| && b[k] == a[|a| - 1]
    ensures multiset(a[..|a| - 1]) == multiset(b[..k] + b[k + 1..])
  {
    var last := a[|a| - 1];
    assert last in multiset(b);
    k :| 0 <= k < |b| && b[k] == last;
    assert b == b[..k] + [b[k]] + b[k + 1..];
    assert a == a[..|a| - 1] + [last];
    assert multiset(a[..|a| - 1]) == multiset(a) - multiset{last};
  }

  lemma {:induction false} CountIgnoresOrder(a: seq<RevealedVote>, b: seq<RevealedVote>, o: VerdictOutcome)
    requires multiset(a) == multiset(b)
    ensures CountFor(a, o) == CountFor(b, o)
    decreases |a|
  {
    if a == [] {
      assert |multiset(b)| == |b|;
    } else {
      var k := LastIsSomewhere(a, b);
      CountIgnoresOrder(a[..|a| - 1], b[..k] + b[k + 1..], o);
      CountWithout(b, k, o);
    }
  }

  /** The outcome does not depend on the order of the reveals. */
  lemma OutcomeIgnoresOrder(a: seq<RevealedVote>, b: seq<RevealedVote>, committeeSize: nat)
    requires multiset(a) == multiset(b)
    ensures TallyOf(a, committeeSize).outcome == TallyOf(b, committeeSize).outcome
  {
    CountIgnoresOrder(a, b, Accept);
    CountIgnoresOrder(a, b, Partial);
    CountIgnoresOrder(a, b, Reject);
  }

  // ------------------------------------------------------- what is hashed and counted

  /** The bytes that are hashed, one after the other: job id, validator id, outcome in lower case, salt. */
  lemma PreimageLayout(j: Id, v: Id, o: VerdictOutcome, s: Bytes, k: nat)
    ensures var p := Preimage(j, v, o, s);
            var word := match o case Accept => "accept" case Partial => "partial" case Reject => "reject";
            && |p| == |j| + |v| + |word| + |s|
            && (k < |j| ==> p[k] == j[k] as int)
            && (k < |v| ==> p[|j| + k] == v[k] as int)
            && (k < |word| ==> p[|j| + |v| + k] == word[k] as int)
            && (k < |s| ==> p[|j| + |v| + |word| + k] == s[k])
  {
  }

  /** Which of the first `n` votes are for an outcome. */
  function Places(votes: seq<RevealedVote>, n: nat, o: VerdictOutcome): set<nat>
    requires n <= |votes|
  {
    set i: nat | i < n && votes[i].outcome == o
  }

  lemma {:induction false} CountOfFirst(votes: seq<RevealedVote>, n: nat, o: VerdictOutcome)
    requires n <= |votes|
    ensures CountFor(votes[..n], o) == |Places(votes, n, o)|
  {
    if n > 0 {
      CountOfFirst(votes, n - 1, o);
      assert votes[..n][..n - 1] == votes[..n - 1];
      if votes[n - 1].outcome == o {
        assert Places(votes, n, o) == Places(votes, n - 1, o) + {n - 1};
      } else {
        assert Places(votes, n, o) == Places(votes, n - 1, o);
      }
    }
  }

  /** The count is the number of votes for the outcome. */
  lemma CountsAreVotes(votes: seq<RevealedVote>, o: VerdictOutcome)
    ensures CountFor(votes, o) == |Places(votes, |votes|, o)|
  {
    CountOfFirst(votes, |votes|, o);
    assert votes[..|votes|] == votes;
  }

  lemma {:induction false} SupporterVoted(votes: seq<RevealedVote>, o: VerdictOutcome, id: Id) returns (i: nat)
    requires id in VotersFor(votes, o)
    ensures i < |votes| && votes[i] == RevealedVote(id, o)
  {
    var n := |votes| - 1;
    if id in VotersFor(votes[..n], o) {
      i := SupporterVoted(votes[..n], o, id);
    } else {
      i := n;
    }
  }

  lemma {:induction false} VoterSupports(votes: seq<RevealedVote>, o: VerdictOutcome, i: nat)
    requires i < |votes| && votes[i].outcome == o
    ensures votes[i].validatorId in VotersFor(votes, o)
  {
    var n := |votes| - 1;
    if i < n {
      VoterSupports(votes[..n], o, i);
    }
  }

  /** The supporters of an outcome are those who voted for it. */
  lemma SupportersAreVoters(votes: seq<RevealedVote>, o: VerdictOutcome, id: Id)
    ensures id in VotersFor(votes, o) <==> exists i :: 0 <= i < |votes| && votes[i] == RevealedVote(id, o)
  {
    if id in VotersFor(votes, o) {
      var i := SupporterVoted(votes, o, id);
    }
    if i :| 0 <= i < |votes| && votes[i] == RevealedVote(id, o) {
      VoterSupports(votes, o, i);
    }
  }
}

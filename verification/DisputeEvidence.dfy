/**
 Evidence attached to disputes (src/modules/disputes/dispute-evidence.service.ts), next to the dispute
 tables it consults. The hash function and the trimming of declared hashes are parameters: nothing is
 asked of them.
 */
module DisputeEvidence {
  import opened Basics
  import opened Ordering
  import opened Base64
  import Disputes = DisputeTables

  const MAX_INLINE_EVIDENCE_BYTES := 64 * 1024

  /** An evidence row, named by its place in the table. */
  datatype Evidence = Evidence(disputeId: Id, contentHash: string, sizeBytes: Option<int>, hashVerified: bool)

  datatype Dto = Dto(contentHash: Option<string>, sizeBytes: Option<int>, content: Option<string>)

  datatype Settings = Settings(sha256Hex: seq<Byte> -> string, normalizeHash: string -> string, limit: int)

  datatype Error =
    | DisputeNotFound | DisputeResolved | NotBase64 | TooLarge | HashMismatch | HashMissing
    | AlreadyAttached | LimitReached | EvidenceNotFound

  datatype Reply = Attached(id: nat) | Compared(matches: bool) | Refused(error: Error)

  datatype Content = Bytes(bytes: seq<Byte>) | Unreadable(error: Error)

  function ReadContent(content: string): Content {
    match DecodeStrict(content)
    case None => Unreadable(NotBase64)
    case Some(bytes) => if |bytes| > MAX_INLINE_EVIDENCE_BYTES then Unreadable(TooLarge) else Bytes(bytes)
  }

  datatype Claim = Claim(contentHash: string, sizeBytes: Option<int>, hashVerified: bool) | Malformed(error: Error)

  /** The declared hash; a missing one and an empty one are the same to the service. */
  function DeclaredHash(s: Settings, dto: Dto): string {
    if dto.contentHash.None? || dto.contentHash.value == "" then "" else s.normalizeHash(dto.contentHash.value)
  }

  /** What an attachment claims about its content, before the table is looked at. */
  function ClaimOf(s: Settings, dto: Dto): Claim {
    var declared := DeclaredHash(s, dto);
    match dto.content
    case None => if declared == "" then Malformed(HashMissing) else Claim(declared, dto.sizeBytes, false)
    case Some(content) =>
      match ReadContent(content)
      case Unreadable(error) => Malformed(error)
      case Bytes(bytes) =>
        var computed := s.sha256Hex(bytes);
        if declared != "" && declared != computed then Malformed(HashMismatch)
        else if computed == "" then Malformed(HashMissing)
        else Claim(computed, Some(|bytes|), true)
  }

  function OfDispute(id: Id): Evidence -> bool { (row: Evidence) => row.disputeId == id }

  predicate IsAttached(rows: seq<Evidence>, disputeId: Id, contentHash: string) {
    exists i :: 0 <= i < |rows| && rows[i].disputeId == disputeId && rows[i].contentHash == contentHash
  }

  function Attach(rows: seq<Evidence>, disputes: map<Id, Disputes.Dispute>, s: Settings, disputeId: Id, dto: Dto)
    : (seq<Evidence>, Reply)
  {
    if disputeId !in disputes then (rows, Refused(DisputeNotFound))
    else if disputes[disputeId].status == Disputes.Resolved then (rows, Refused(DisputeResolved))
    else
      match ClaimOf(s, dto)
      case Malformed(error) => (rows, Refused(error))
      case Claim(contentHash, sizeBytes, verified) =>
        if IsAttached(rows, disputeId, contentHash) then (rows, Refused(AlreadyAttached))
        else if |Filter(rows, OfDispute(disputeId))| >= s.limit then (rows, Refused(LimitReached))
        else (rows + [Evidence(disputeId, contentHash, sizeBytes, verified)], Attached(|rows|))
  }

  function Verify(rows: seq<Evidence>, s: Settings, disputeId: Id, id: nat, content: string): (seq<Evidence>, Reply) {
    if id >= |rows| || rows[id].disputeId != disputeId then (rows, Refused(EvidenceNotFound))
    else
      match ReadContent(content)
      case Unreadable(error) => (rows, Refused(error))
      case Bytes(bytes) =>
        if s.sha256Hex(bytes) == rows[id].contentHash then
          (rows[id := rows[id].(hashVerified := true)], Compared(true))
        else (rows, Compared(false))
  }

  // --------------------------------------------------------------------- runs

  /** A call, with the dispute table it found. */
  datatype Event =
    | Attaching(disputes: map<Id, Disputes.Dispute>, disputeId: Id, dto: Dto)
    | Verifying(disputeId: Id, id: nat, content: string)

  function Step(rows: seq<Evidence>, s: Settings, e: Event): (seq<Evidence>, Reply) {
    match e
    case Attaching(disputes, d, dto) => Attach(rows, disputes, s, d, dto)
    case Verifying(d, id, content) => Verify(rows, s, d, id, content)
  }

  /** The table after the first `n` calls of a run. */
  function After(s: Settings, events: seq<Event>, n: nat): seq<Evidence>
    requires n <= |events|
  {
    if n == 0 then [] else Step(After(s, events, n - 1), s, events[n - 1]).0
  }

  /** `content` decodes, within the size limit, to bytes with the given hash. */
  predicate HasHash(s: Settings, content: string, hash: string) {
    var decoded := ReadContent(content);
    decoded.Bytes? && s.sha256Hex(decoded.bytes) == hash
  }

  /** The call shows content with this hash for this dispute. */
  predicate Shows(s: Settings, e: Event, disputeId: Id, hash: string) {
    match e
    case Attaching(_, d, dto) => d == disputeId && dto.content.Some? && HasHash(s, dto.content.value, hash)
    case Verifying(d, _, content) => d == disputeId && HasHash(s, content, hash)
  }

  /** Taking effect on `rows`, the call shows the content of row `i`: it creates the row from content,
      or checks content against it and finds a match. */
  predicate Vouches(rows: seq<Evidence>, s: Settings, e: Event, i: nat) {
    match e
    case Attaching(_, _, dto) => dto.content.Some? && Step(rows, s, e).1 == Attached(i)
    case Verifying(_, id, _) => id == i && Step(rows, s, e).1 == Compared(true)
  }

  /** Later tables: rows are only appended, and of an old row only the flag may change, from false to true. */
  predicate Extends(before: seq<Evidence>, after: seq<Evidence>) {
    && |before| <= |after|
    && forall i :: 0 <= i < |before| ==>
         && after[i].(hashVerified := before[i].hashVerified) == before[i]
         && (before[i].hashVerified ==> after[i].hashVerified)
  }

  predicate MayAppend(rows: seq<Evidence>, s: Settings, e: Event, row: Evidence) {
    && e.Attaching? && row.disputeId == e.disputeId
    && e.disputeId in e.disputes && e.disputes[e.disputeId].status != Disputes.Resolved
    && |Filter(rows, OfDispute(row.disputeId))| < s.limit
    && !IsAttached(rows, row.disputeId, row.contentHash)
  }

  /** A call appends one acceptable row, or changes flags only. */
  lemma StepShape(rows: seq<Evidence>, s: Settings, e: Event)
    ensures var after := Step(rows, s, e).0;
            && Extends(rows, after)
            && (|after| == |rows| || (after == rows + [after[|rows|]] && MayAppend(rows, s, e, after[|rows|])))
  {
  }

  /** Verification is never lost and rows are never altered or removed. */
  lemma {:induction false} RowsAreKept(s: Settings, events: seq<Event>, k: nat, n: nat)
    requires k <= n <= |events|
    ensures Extends(After(s, events, k), After(s, events, n))
    decreases n
  {
    if k < n {
      RowsAreKept(s, events, k, n - 1);
      StepShape(After(s, events, n - 1), s, events[n - 1]);
      ExtendsOn(After(s, events, k), After(s, events, n - 1), After(s, events, n));
    }
  }

  lemma ExtendsOn(a: seq<Evidence>, b: seq<Evidence>, c: seq<Evidence>)
    requires Extends(a, b) && Extends(b, c)
    ensures Extends(a, c)
  {
  }

  lemma VouchedContentMatches(rows: seq<Evidence>, s: Settings, e: Event, i: nat)
    requires Vouches(rows, s, e, i)
    ensures var after := Step(rows, s, e).0;
            i < |after| && after[i].hashVerified && Shows(s, e, after[i].disputeId, after[i].contentHash)
  {
  }

  lemma StepVerifies(rows: seq<Evidence>, s: Settings, e: Event, i: nat)
    ensures i < |Step(rows, s, e).0| && Step(rows, s, e).0[i].hashVerified <==>
            Vouches(rows, s, e, i) || (i < |rows| && rows[i].hashVerified)
  {
  }

  predicate VouchesAt(s: Settings, events: seq<Event>, k: nat, i: nat)
    requires k < |events|
  {
    Vouches(After(s, events, k), s, events[k], i)
  }

  predicate VerifiedBy(s: Settings, events: seq<Event>, n: nat, i: nat)
    requires n <= |events|
  {
    i < |After(s, events, n)| && After(s, events, n)[i].hashVerified
  }

  /** A row is marked verified exactly when some call of the run vouched for it. */
  lemma VerifiedExactly(s: Settings, events: seq<Event>, i: nat)
    ensures VerifiedBy(s, events, |events|, i) <==> exists k :: 0 <= k < |events| && VouchesAt(s, events, k, i)
  {
    var up, raises := Up(s, events, i), Raises(s, events, i);
    UpAfterRaise(s, events, i);
    Latch(up, raises, |events|);
    assert up(|events|) == VerifiedBy(s, events, |events|, i);
    assert forall k: nat :: k < |events| ==> raises(k) == VouchesAt(s, events, k, i);
  }

  function Up(s: Settings, events: seq<Event>, i: nat): nat -> bool {
    (n: nat) => n <= |events| && VerifiedBy(s, events, n, i)
  }

  function Raises(s: Settings, events: seq<Event>, i: nat): nat -> bool {
    (k: nat) => k < |events| && VouchesAt(s, events, k, i)
  }

  lemma UpAfterRaise(s: Settings, events: seq<Event>, i: nat)
    ensures !Up(s, events, i)(0)
    ensures forall m: nat :: m < |events| ==>
              (Up(s, events, i)(m + 1) <==> Raises(s, events, i)(m) || Up(s, events, i)(m))
  {
    forall m: nat | m < |events|
      ensures Up(s, events, i)(m + 1) <==> Raises(s, events, i)(m) || Up(s, events, i)(m)
    {
      UpAt(s, events, i, m);
    }
  }

  lemma UpAt(s: Settings, events: seq<Event>, i: nat, m: nat)
    requires m < |events|
    ensures Up(s, events, i)(m + 1) <==> Raises(s, events, i)(m) || Up(s, events, i)(m)
  {
    VerifiedAtLast(s, events, m + 1, i);
  }

  /** A flag that is only ever raised is up exactly when something raised it. */
  lemma {:induction false} Latch(up: nat -> bool, raises: nat -> bool, n: nat)
    requires !up(0)
    requires forall m: nat :: m < n ==> (up(m + 1) <==> raises(m) || up(m))
    ensures up(n) <==> exists k: nat :: k < n && raises(k)
  {
    if n > 0 {
      Latch(up, raises, n - 1);
      assert up(n - 1 + 1) <==> raises(n - 1) || up(n - 1);
    }
  }

  lemma VerifiedAtLast(s: Settings, events: seq<Event>, n: nat, i: nat)
    requires 0 < n <= |events|
    ensures VerifiedBy(s, events, n, i) <==> VouchesAt(s, events, n - 1, i) || VerifiedBy(s, events, n - 1, i)
  {
    StepVerifies(After(s, events, n - 1), s, events[n - 1], i);
  }

  predicate ShowsAt(s: Settings, events: seq<Event>, k: nat, row: Evidence)
    requires k < |events|
  {
    Shows(s, events[k], row.disputeId, row.contentHash)
  }

  /** A verified row always had bytes with exactly its hash presented for its dispute. */
  lemma VerifiedMeansShown(s: Settings, events: seq<Event>, i: nat)
    requires VerifiedBy(s, events, |events|, i)
    ensures exists k :: 0 <= k < |events| && ShowsAt(s, events, k, After(s, events, |events|)[i])
  {
    VerifiedExactly(s, events, i);
    var k :| 0 <= k < |events| && VouchesAt(s, events, k, i);
    ShownForTheRow(s, events, k, i);
  }

  lemma ShownForTheRow(s: Settings, events: seq<Event>, k: nat, i: nat)
    requires k < |events| && VouchesAt(s, events, k, i)
    ensures i < |After(s, events, |events|)|
    ensures ShowsAt(s, events, k, After(s, events, |events|)[i])
  {
    VouchedContentMatches(After(s, events, k), s, events[k], i);
    assert After(s, events, k + 1) == Step(After(s, events, k), s, events[k]).0;
    RowsAreKept(s, events, k + 1, |events|);
    SameContentShown(s, events[k], After(s, events, k + 1), After(s, events, |events|), i);
  }

  /** What was shown for a row was shown for it as it stands later. */
  lemma SameContentShown(s: Settings, e: Event, before: seq<Evidence>, after: seq<Evidence>, i: nat)
    requires Extends(before, after) && i < |before| && Shows(s, e, before[i].disputeId, before[i].contentHash)
    ensures i < |after| && Shows(s, e, after[i].disputeId, after[i].contentHash)
  {
  }

  // ------------------------------------------------------ what the table keeps

  /** No content is attached twice to a dispute, and no dispute exceeds the limit. */
  ghost predicate Inv(rows: seq<Evidence>, s: Settings) {
    && (forall i, j :: 0 <= i < j < |rows| && rows[i].disputeId == rows[j].disputeId
                       ==> rows[i].contentHash != rows[j].contentHash)
    && (forall d :: |Filter(rows, OfDispute(d))| <= Max(0, s.limit))
  }

  lemma {:induction false} ReachableInv(s: Settings, events: seq<Event>, n: nat)
    requires n <= |events|
    ensures Inv(After(s, events, n), s)
    decreases n
  {
    if n > 0 {
      ReachableInv(s, events, n - 1);
      StepKeeps(After(s, events, n - 1), s, events[n - 1]);
    }
  }

  lemma StepKeeps(rows: seq<Evidence>, s: Settings, e: Event)
    requires Inv(rows, s)
    ensures Inv(Step(rows, s, e).0, s)
  {
    StepShape(rows, s, e);
    forall d ensures |Filter(Step(rows, s, e).0, OfDispute(d))| <= Max(0, s.limit) {
      StepCounts(rows, s, e, d);
    }
  }

  lemma StepCounts(rows: seq<Evidence>, s: Settings, e: Event, d: Id)
    ensures var count, next := |Filter(rows, OfDispute(d))|, |Filter(Step(rows, s, e).0, OfDispute(d))|;
            next == count || (next == count + 1 <= s.limit && Admits(e, d))
  {
    var after := Step(rows, s, e).0;
    StepShape(rows, s, e);
    if |after| == |rows| {
      SameCount(rows, after, d);
    } else {
      var row := after[|rows|];
      FilterAppend(rows, [row], OfDispute(d));
      assert Filter([row], OfDispute(d)) == if row.disputeId == d then [row] else [];
    }
  }

  /** The call finds the dispute unresolved. */
  predicate Admits(e: Event, d: Id) {
    e.Attaching? && e.disputeId == d && d in e.disputes && e.disputes[d].status != Disputes.Resolved
  }

  lemma {:induction false} SameCount(before: seq<Evidence>, after: seq<Evidence>, d: Id)
    requires |before| == |after| && Extends(before, after)
    ensures |Filter(before, OfDispute(d))| == |Filter(after, OfDispute(d))|
    decreases |before|
  {
    if before != [] {
      SameCount(before[1..], after[1..], d);
    }
  }

  /** While a dispute is resolved, no evidence is added to it. */
  lemma {:induction false} ResolvedDisputesTakeNoEvidence(s: Settings, events: seq<Event>, m: nat, n: nat, d: Id)
    requires m <= n <= |events|
    requires forall k :: m <= k < n && events[k].Attaching? && d in events[k].disputes
                         ==> events[k].disputes[d].status == Disputes.Resolved
    ensures |Filter(After(s, events, n), OfDispute(d))| == |Filter(After(s, events, m), OfDispute(d))|
    decreases n
  {
    if m < n {
      ResolvedDisputesTakeNoEvidence(s, events, m, n - 1, d);
      StepCounts(After(s, events, n - 1), s, events[n - 1], d);
    }
  }
}

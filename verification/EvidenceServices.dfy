/**
 The evidence service over its table, proved to do what DisputeEvidence says.
 */
module EvidenceServices {
  import opened Basics
  import opened Ordering
  import opened DisputeEvidence
  import Disputes = DisputeTables

  class EvidenceService {
    const settings: Settings
    var rows: seq<Evidence>

    constructor (s: Settings)
      ensures settings == s && rows == []
    {
      settings, rows := s, [];
    }

    /** Looks through the evidence of a dispute: is this hash among it, and how much is there? */
    method Existing(disputeId: Id, contentHash: string) returns (duplicate: bool, count: nat)
      ensures duplicate == IsAttached(rows, disputeId, contentHash)
      ensures count == |Filter(rows, OfDispute(disputeId))|
    {
      duplicate, count := false, 0;
      for i := 0 to |rows|
        invariant duplicate == IsAttached(rows[..i], disputeId, contentHash)
        invariant count == |Filter(rows[..i], OfDispute(disputeId))|
      {
        assert rows[..i + 1] == rows[..i] + [rows[i]];
        FilterAppend(rows[..i], [rows[i]], OfDispute(disputeId));
        if rows[i].disputeId == disputeId {
          duplicate := duplicate || rows[i].contentHash == contentHash;
          count := count + 1;
        }
      }
      assert rows[..|rows|] == rows;
    }

    method Attach(disputes: map<Id, Disputes.Dispute>, disputeId: Id, dto: Dto) returns (reply: Reply)
      modifies this
      ensures (rows, reply) == DisputeEvidence.Attach(old(rows), disputes, settings, disputeId, dto)
    {
      if disputeId !in disputes {
        return Refused(DisputeNotFound);
      }
      if disputes[disputeId].status == Disputes.Resolved {
        return Refused(DisputeResolved);
      }
      var contentHash := DeclaredHash(settings, dto);
      var sizeBytes, hashVerified := dto.sizeBytes, false;
      if dto.content.Some? {
        var content := ReadContent(dto.content.value);
        if content.Unreadable? {
          return Refused(content.error);
        }
        var computed := settings.sha256Hex(content.bytes);
        if contentHash != "" && contentHash != computed {
          return Refused(HashMismatch);
        }
        contentHash := computed;
        sizeBytes := Some(|content.bytes|);
        hashVerified := true;
      }
      if contentHash == "" {
        return Refused(HashMissing);
      }
      assert ClaimOf(settings, dto) == Claim(contentHash, sizeBytes, hashVerified);
      var duplicate, count := Existing(disputeId, contentHash);
      if duplicate {
        return Refused(AlreadyAttached);
      }
      if count >= settings.limit {
        return Refused(LimitReached);
      }
      rows := rows + [Evidence(disputeId, contentHash, sizeBytes, hashVerified)];
      reply := Attached(|rows| - 1);
    }

    method Verify(disputeId: Id, evidenceId: nat, content: string) returns (reply: Reply)
      modifies this
      ensures (rows, reply) == DisputeEvidence.Verify(old(rows), settings, disputeId, evidenceId, content)
    {
      if evidenceId >= |rows| || rows[evidenceId].disputeId != disputeId {
        return Refused(EvidenceNotFound);
      }
      var decoded := ReadContent(content);
      if decoded.Unreadable? {
        return Refused(decoded.error);
      }
      var evidence := rows[evidenceId];
      var matches := settings.sha256Hex(decoded.bytes) == evidence.contentHash;
      if matches && !evidence.hashVerified {
        rows := rows[evidenceId := evidence.(hashVerified := true)];
      }
      assert evidence.hashVerified ==> rows[evidenceId := evidence.(hashVerified := true)] == rows;
      reply := Compared(matches);
    }
  }
}

/**
 Which evidence is taken and what is recorded of it (src/modules/disputes/dispute-evidence.service.ts).
 */
module AttachmentRules {
  import opened Basics
  import opened Ordering
  import opened Base64
  import opened DisputeEvidence
  import Disputes = DisputeTables

  /** The content, if there is any, is the strict base64 of at most 64 KiB. */
  predicate Readable(content: string, bytes: seq<Byte>) {
    bytes != [] && |bytes| <= 65536 && Encode(bytes) == content
  }

  lemma ReadableExactly(content: string, bytes: seq<Byte>)
    ensures ReadContent(content) == Bytes(bytes) <==> Readable(content, bytes)
  {
    StrictIsExactInverse(content, bytes);
  }

  /** The declared hash, in the form the service compares; absent and empty are the same. */
  predicate Declares(s: Settings, dto: Dto, hash: string) {
    match dto.contentHash
    case None => hash == ""
    case Some(text) => hash == if text == "" then "" else s.normalizeHash(text)
  }

  /** What an attachment puts on record: content counts with its own hash and size, a bare hash with what is
      declared. */
  ghost predicate Records(s: Settings, dto: Dto, hash: string, size: Option<int>, verified: bool) {
    && hash != ""
    && match dto.content
       case None => Declares(s, dto, hash) && size == dto.sizeBytes && !verified
       case Some(content) =>
         exists bytes ::
           && Readable(content, bytes) && hash == s.sha256Hex(bytes) && size == Some(|bytes|) && verified
           && (Declares(s, dto, "") || Declares(s, dto, hash))
  }

  /** The rows of a dispute. */
  function RowsOf(rows: seq<Evidence>, d: Id): set<nat> { set i: nat | i < |rows| && rows[i].disputeId == d }

  lemma {:induction false} RowsOfCount(rows: seq<Evidence>, d: Id)
    ensures |Filter(rows, OfDispute(d))| == |RowsOf(rows, d)|
  {
    if rows == [] {
      assert RowsOf(rows, d) == {};
    } else {
      var n := |rows| - 1;
      var before := rows[..n];
      RowsOfCount(before, d);
      assert rows == before + [rows[n]];
      FilterAppend(before, [rows[n]], OfDispute(d));
      assert Filter([rows[n]], OfDispute(d)) == if rows[n].disputeId == d then [rows[n]] else [];
      LastRowOf(rows, d);
    }
  }

  lemma LastRowOf(rows: seq<Evidence>, d: Id)
    requires rows != []
    ensures var n := |rows| - 1;
            |RowsOf(rows, d)| == |RowsOf(rows[..n], d)| + if rows[n].disputeId == d then 1 else 0
  {
    var n := |rows| - 1;
    var before, all := RowsOf(rows[..n], d), RowsOf(rows, d);
    assert forall i: nat :: i < n ==> rows[..n][i] == rows[i];
    if rows[n].disputeId == d {
      assert all == before + {n};
    } else {
      assert all == before;
    }
  }

  /** There is room for this content: the dispute is known and not resolved, has fewer rows than the limit and none
      with this hash. */
  predicate HasRoom(rows: seq<Evidence>, disputes: map<Id, Disputes.Dispute>, s: Settings, d: Id, hash: string) {
    && d in disputes && disputes[d].status != Disputes.Resolved
    && |RowsOf(rows, d)| < s.limit
    && forall i :: 0 <= i < |rows| && rows[i].disputeId == d ==> rows[i].contentHash != hash
  }

  lemma ClaimsExactly(s: Settings, dto: Dto, hash: string, size: Option<int>, verified: bool)
    ensures ClaimOf(s, dto) == Claim(hash, size, verified) <==> Records(s, dto, hash, size, verified)
  {
    match dto.content
    case None =>
    case Some(content) =>
      match ReadContent(content)
      case Bytes(bytes) =>
        ReadableExactly(content, bytes);
        forall other | Readable(content, other) ensures other == bytes {
          ReadableExactly(content, other);
        }
      case Unreadable(_) =>
        forall other ensures !Readable(content, other) {
          ReadableExactly(content, other);
        }
  }

  /** An attachment is taken if and only if it puts something on record for which there is room, and then exactly
      that is appended, for its dispute. */
  lemma AttachesExactly(rows: seq<Evidence>, disputes: map<Id, Disputes.Dispute>, s: Settings, d: Id, dto: Dto,
                        row: Evidence)
    ensures Attach(rows, disputes, s, d, dto) == (rows + [row], Attached(|rows|)) <==>
            && row.disputeId == d
            && Records(s, dto, row.contentHash, row.sizeBytes, row.hashVerified)
            && HasRoom(rows, disputes, s, d, row.contentHash)
    ensures Attach(rows, disputes, s, d, dto).1.Refused? ==> Attach(rows, disputes, s, d, dto).0 == rows
  {
    RowsOfCount(rows, d);
    ClaimsExactly(s, dto, row.contentHash, row.sizeBytes, row.hashVerified);
    var (after, reply) := Attach(rows, disputes, s, d, dto);
    if after == rows + [row] {
      assert after[|rows|] == row;
    }
  }

  /** Verification compares the bytes with the recorded hash of a row of this dispute: a match raises its flag and
      nothing else changes. */
  lemma VerifiesExactly(rows: seq<Evidence>, s: Settings, d: Id, id: nat, content: string)
    ensures var (after, reply) := Verify(rows, s, d, id, content);
            && (reply == Compared(true) <==>
                  && id < |rows| && rows[id].disputeId == d
                  && exists bytes :: Readable(content, bytes) && s.sha256Hex(bytes) == rows[id].contentHash)
            && (reply == Compared(true) ==> after == rows[id := rows[id].(hashVerified := true)])
            && (reply != Compared(true) ==> after == rows)
  {
    match ReadContent(content)
    case Bytes(bytes) =>
      ReadableExactly(content, bytes);
      forall other | Readable(content, other) ensures other == bytes {
        ReadableExactly(content, other);
      }
    case Unreadable(_) =>
      forall other ensures !Readable(content, other) {
        ReadableExactly(content, other);
      }
  }
}

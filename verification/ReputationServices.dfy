/**
 The reputation service over its table, proved to do what Reputation says.
 */
module ReputationServices {
  import opened Basics
  import opened Reputation

  class ReputationService {
    const settings: Settings
    var scores: map<Id, Score>

    constructor (s: Settings)
      ensures settings == s && scores == map[]
    {
      settings, scores := s, map[];
    }

    method RecordObservation(o: Observed)
      modifies this
      ensures scores == Record(old(scores), settings, o)
    {
      var score := UNKNOWN;
      if o.entityId in scores {
        score := scores[o.entityId];
      }
      var factor := FactorSince(settings, score.lastActivityAt, o.now);
      var accuracy := Fold(score.accuracy, score.evidenceWeight, o.accurate, factor);
      var losses := Fold(score.disputeLossRate, score.evidenceWeight, o.disputeLost, factor);
      score := score.(accuracy := Round4(accuracy.mean));
      score := score.(disputeLossRate := Round4(losses.mean));
      score := score.(evidenceWeight := Round6(accuracy.weight));
      score := score.(lastActivityAt := Some(o.now));
      if !o.disputeLost {
        score := score.(totalJobs := score.totalJobs + 1);
      }
      scores := scores[o.entityId := score];
    }

    /** The loop over validators; `fails` says which of its calls the store rejects. */
    method RecordForValidators(ids: seq<Id>, o: Observed, fails: nat -> bool)
      modifies this
      ensures scores == RecordAll(old(scores), settings, ids, o, fails, |ids|)
    {
      for i := 0 to |ids|
        invariant scores == RecordAll(old(scores), settings, ids, o, fails, i)
      {
        if !fails(i) {
          RecordObservation(o.(entityId := ids[i]));
        }
      }
    }
  }
}

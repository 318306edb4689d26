/** The class-based heart-rate component: every notification is parsed,
    the rate goes to the data callback, and the component state is written
    only when something it shows has changed. Its parseHeartRate is the same
    function as the one in module ServiceHeartRate. */
module HeartRateServiceComponent {
  import opened Bytes
  import opened ServiceHeartRate

  /** One call of `dataCallbackFn(name, values)`. */
  datatype Callback = Callback(name: string, values: seq<int>)

  /** Whether the handler sets `changed` for a notification m: the rate
      differs, or contact status is reported and differs, or RR intervals
      are reported at all. The RR list is a fresh array on every
      notification and `!==` compares arrays by identity, so it always
      counts as a change. */
  predicate Differs(heartRate: Option<int>, contactDetected: Option<bool>, m: HeartRateMeasurement)
  {
    || heartRate != Some(m.heartRate)
    || m.rrIntervals.Some?
    || (m.contactDetected.Some? && contactDetected != m.contactDetected)
  }

  /** A notification that repeats the shown rate and contact status and
      carries no RR list writes nothing; one that carries an RR list always
      writes, even when it repeats the shown values. */
  lemma RepeatsWriteOnlyWithRr(m: HeartRateMeasurement, rr: Option<seq<int>>)
    requires m.contactDetected.Some?
    ensures !Differs(Some(m.heartRate), m.contactDetected, m.(rrIntervals := None))
    ensures Differs(Some(m.heartRate), m.contactDetected, m.(rrIntervals := Some([])))
    ensures forall other :: other != m.heartRate ==> Differs(Some(other), m.contactDetected, m)
  {
  }

  class HeartRateService {
    var heartRate: Option<int>
    var rrIntervals: Option<seq<int>>
    var contactDetected: Option<bool>
    var energyExpended: Option<int>
    /** Every call of the data callback, in order. */
    var callbacks: seq<Callback>
    /** How many times the handler has called setState. */
    var stateWrites: nat

    constructor ()
      ensures heartRate == None && rrIntervals == None && contactDetected == None && energyExpended == None
      ensures callbacks == [] && stateWrites == 0
    {
      heartRate := None;
      rrIntervals := None;
      contactDetected := None;
      energyExpended := None;
      callbacks := [];
      stateWrites := 0;
    }

    /** heartRateChangedHandler. The callback sees the rate of every
        notification; the state is written once, with every field that
        changed, exactly when one did. Energy is never stored. */
    method HeartRateChangedHandler(data: seq<byte>) returns (failure: Option<Failure>)
      modifies this
      ensures var parsed := HeartRateOf(data);
        && (parsed.Err? ==>
              && failure == Some(parsed.failure)
              && heartRate == old(heartRate) && rrIntervals == old(rrIntervals)
              && contactDetected == old(contactDetected)
              && callbacks == old(callbacks) && stateWrites == old(stateWrites))
        && (parsed.Ok? ==>
              var m := parsed.value;
              && failure == None
              && callbacks == old(callbacks) + [Callback("heartRate", [m.heartRate])]
              && stateWrites == old(stateWrites) + (if Differs(old(heartRate), old(contactDetected), m) then 1 else 0)
              && heartRate == Some(m.heartRate)
              && rrIntervals == (if m.rrIntervals.Some? then m.rrIntervals else old(rrIntervals))
              && contactDetected == (if m.contactDetected.Some? then m.contactDetected else old(contactDetected)))
      ensures energyExpended == old(energyExpended)
    {
      var result := ParseHeartRate(data);
      if result.Err? {
        return Some(result.failure);
      }
      var parsed := result.value;
      var changed := false;
      var newRate, newRr, newContact := heartRate, rrIntervals, contactDetected;
      if heartRate != Some(parsed.heartRate) {
        changed := true;
        newRate := Some(parsed.heartRate);
      }
      callbacks := callbacks + [Callback("heartRate", [parsed.heartRate])];
      if parsed.rrIntervals.Some? {
        changed := true;
        newRr := parsed.rrIntervals;
      }
      if parsed.contactDetected.Some? {
        if contactDetected != parsed.contactDetected {
          changed := true;
          newContact := parsed.contactDetected;
        }
      }
      if changed {
        heartRate, rrIntervals, contactDetected := newRate, newRr, newContact;
        stateWrites := stateWrites + 1;
      }
      return None;
    }
  }
}

/** Environment parameters: the three quantities derived once per run from the
    temperature and the nutrient availability. */
module Environment {

  /** Extra death probability per tick caused by temperature. */
  function AdjustedDeathRate(temperature: real): (r: real)
    ensures 0.0 <= temperature <= 30.0 ==> 0.0 <= r <= 0.0024
    ensures temperature == 0.0 <==> r == 0.0
  {
    temperature * 0.00008
  }

  /** Degradation-efficiency adjustment subtracted from the degradation rate. */
  function AdjustedDegradeEfficiency(temperature: real): (r: real)
    ensures 0.0 <= temperature <= 30.0 ==> 0.0 <= r <= 0.15
    ensures temperature == 30.0 ==> r == 0.15
  {
    temperature / 30.0 * 0.15
  }

  /** Squared-distance threshold for attachment, widened by nutrients. */
  function AdjustedProximityThreshold(nutrientAvailability: real): (r: real)
    ensures 0.0 <= nutrientAvailability <= 4.0 ==> 0.005 <= r <= 0.025
    ensures nutrientAvailability == 2.0 ==> r == 0.015
  {
    var proximityThreshold := 0.005;
    var adjustmentFactor := 1.0 + nutrientAvailability;
    proximityThreshold * adjustmentFactor
  }

  /** More nutrients never shrink the attachment radius. */
  lemma {:induction false} ProximityThresholdMonotone(n1: real, n2: real)
    requires n1 <= n2
    ensures AdjustedProximityThreshold(n1) <= AdjustedProximityThreshold(n2)
  {
  }
}

/** The health record of one provider and the five ways it changes (modules/provider.go). */
module ProviderHealth {

  datatype HealthStatus = Healthy | Warning | Unhealthy

  /** The three health fields of a provider, as a value. */
  datatype Health = Health(failures: nat, successes: nat, status: HealthStatus)

  const FRESH := Health(0, 0, Healthy)

  function PingFailure(h: Health, threshold: int): Health {
    var failures := h.failures + 1;
    Health(failures, 0, if h.status.Healthy? && failures > threshold then Unhealthy else h.status)
  }

  function PingWarning(h: Health): Health {
    Health(0, 0, Warning)
  }

  function PingSuccess(h: Health, threshold: int): Health {
    var successes := h.successes + 1;
    if h.status.Unhealthy? && successes > threshold
    then Health(0, successes, Healthy)
    else h.(successes := successes)
  }

  function AsHealthy(h: Health): Health {
    h.(status := Healthy)
  }

  function AsWarning(h: Health): Health {
    h.(status := Warning)
  }
}

/** What the adapters inherit: device identities and their communication statistics. */
module ProtocolBase {
  type DeviceId = int

  datatype DeviceStats = DeviceStats(requests: nat, successes: nat, errors: nat)

  const FRESH_STATS := DeviceStats(0, 0, 0)
}

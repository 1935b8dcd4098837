/** Constants shared by several parts of the system. */
module Constants {
  const CONSENSUS_V6: nat := 6
  const DAY_MS := 86_400_000
  const MAX_SUPPLY := 50_000_000 * 100_000_000
}

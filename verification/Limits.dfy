/** The bounds that `release_queue.rs` and `release_orchestration.rs` share among their parts. */
module Limits {

  const LIMIT := 64 * 1024 * 1024
  const JSON_LIMIT := 1024 * 1024
  const SCAN_LIMIT := 100
}

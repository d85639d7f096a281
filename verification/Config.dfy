/** The compile-time constants of the two programs. */
module Config {
  const GC_PORT := 8000
  const BUFFER_SIZE := 2048
  const RECONNECT_INTERVAL := 10
  const TIMEOUT_THRESHOLD := 20
  const MAX_RECONNECT_ATTEMPTS := 10
  const MAX_FILE_CHUNKS := 100
  const FILE_CHUNK_SIZE := 1024
}

/** Request codes (src/Executor/Messages.h). */
module Messages {
  const PING := 1
  const OPEN_FILE := 2
  const START_PROVIDER_AGENT := 3
  const DAEMONIZE_EXECUTOR := 4
  const REMOVE_FILE := 5
  const RENAME_FILE := 6
  const AUTHENTICATE_PASSWORD := 7
  const VALIDATE_USER := 8
  const CHALLENGE_LOCAL := 9
  const AUTHENTICATE_LOCAL := 10
  const UPDATE_LOG_LEVEL := 11
}

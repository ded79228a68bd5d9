/** The closed goal statuses (`TERMINAL_STATUSES` in `_goal_census.py`). */
module GoalStatus {

  const TERMINAL_STATUSES: set<string> := {"skipped", "expired", "decomposed", "superseded", "completed"}
}

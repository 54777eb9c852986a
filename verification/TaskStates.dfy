/** The states of a task, `task_state_t`; nothing ever sets the third one, TASK_END. */
module TaskStates {
  datatype TaskState = TaskRunning | TaskWaiting
}

/** The answers of the framework's queues. */
module QueueStatuses {
  datatype Status = QueueOk | SizeMismatch | QueueFull | NoMoreMsgs
}

/** The records of the reminder store: task status, task, simulated email,
    and the subject/content pair a reminder generator produces. */
module Types {

  datatype Option<T> = None | Some(value: T)

  /** A task is exactly one of two states. */
  datatype TaskStatus = Pending | Completed

  /** A reminder task. Time values are epoch milliseconds; the source's
      fractional `intervalHours` is kept as the product `intervalHours * 3600000`,
      an integer number of milliseconds. `lastReminderAt` is the only optional field. */
  datatype Task = Task(
    id: string,
    title: string,
    description: string,
    assigneeEmail: string,
    senderEmail: string,
    companyName: string,
    intervalMs: int,
    status: TaskStatus,
    createdAt: int,
    lastReminderAt: Option<int>,
    reminderCount: nat)

  /** A generated reminder stored in the simulated inbox; `taskId` refers back to its task. */
  datatype SimulatedEmail = SimulatedEmail(
    id: string,
    taskId: string,
    taskTitle: string,
    assigneeEmail: string,
    senderEmail: string,
    companyName: string,
    subject: string,
    content: string,
    sentAt: int,
    isRead: bool)

  /** What a reminder generator returns. */
  datatype Reply = Reply(subject: string, content: string)

  /** The task-creation form supplies neither a sender address nor a company
      name, and the email record built by the tick omits both; the model fills
      them with these defaults. */
  const DefaultSender: string := ""
  const DefaultCompany: string := ""
}

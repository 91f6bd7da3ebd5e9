/** Rows and events of the task module (internal/modules/task/domain, internal/common/events). */
module TaskDomain {
  import opened Base

  datatype TaskStatus = Todo | InProgress | Done

  function StatusText(s: TaskStatus): string {
    match s
    case Todo => "todo"
    case InProgress => "in_progress"
    case Done => "done"
  }

  datatype Task = Task(id: Uuid, title: string, status: TaskStatus, createdBy: Uuid, createdAt: nat, updatedAt: nat)

  datatype TaskAssignment = TaskAssignment(id: Uuid, taskId: Uuid, userId: Uuid, createdAt: nat)

  datatype ActivityAction = TaskCreated | AssignmentAdded | ScopeAdded | TaskStatusChanged

  datatype Activity = Activity(id: Uuid, taskId: Uuid, userId: Uuid, action: ActivityAction, createdAt: nat)

  /** What the user module tells the task module about a user. */
  datatype UserInfo = UserInfo(id: Uuid, username: string, email: string)

  /** The topic of task-assignment events. */
  const TopicTaskAssigned: string := "task_assigned_stream"

  /** The payload of a task-assignment event. */
  datatype TaskAssignedEvent = TaskAssignedEvent(
    taskId: string, taskTitle: string, userId: string, userEmail: string, userName: string)

  /** The event as the JSON object its field tags describe. */
  function EventValue(ev: TaskAssignedEvent): Value {
    Obj(map[
      "task_id" := Str(ev.taskId),
      "task_title" := Str(ev.taskTitle),
      "user_id" := Str(ev.userId),
      "user_email" := Str(ev.userEmail),
      "user_name" := Str(ev.userName)])
  }
}

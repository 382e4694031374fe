/** The database rows shared by the stores and services: activities, notes, states and
    timeslices. Every column is nullable, so each field is an `Option`. Timestamps are kept as
    their ISO-8601 text. */
module Models {
  import opened Common

  datatype ActivityStatus = Enabled | Disabled | Deleted

  datatype Activity = Activity(
    id: Option<string>, name: Option<string>, color: Option<string>, categoryId: Option<string>,
    parentId: Option<string>, userId: Option<string>, status: Option<ActivityStatus>, weight: Option<real>)

  datatype Note = Note(id: Option<string>, message: Option<string>, timesliceId: Option<string>, userId: Option<string>)

  datatype State = State(
    id: Option<string>, mood: Option<int>, energy: Option<int>, timesliceId: Option<string>, userId: Option<string>)

  datatype Timeslice = Timeslice(
    id: Option<string>, activityId: Option<string>, startTime: Option<string>, endTime: Option<string>,
    noteIds: Option<seq<string>>, stateId: Option<string>, userId: Option<string>)
}

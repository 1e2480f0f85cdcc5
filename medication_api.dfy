/**
  The record the form collects and the hook sends to the back end. Only the
  record's shape is modelled here; the HTTP request that carries it is not.
 */
module MedicationApi {
  import opened Wrappers

  /**
    `name` and `intervalHours` are optional because the form stores an empty
    input as `undefined`; `intervalHours` holds the raw text of its input.
   */
  datatype MedicationData = MedicationData(
    name: Option<string>,
    scheduleTime: seq<string>,
    intervalHours: Option<string>)
}

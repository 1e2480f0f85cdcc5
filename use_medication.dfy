/**
  The submission state hook: two state slots, `isLoading` and `error`, moved
  through start, then success or failure, then `finally`, around one call to
  the medication API. The call itself is a parameter: a function from the
  record sent to the way the call settles.
 */
module UseMedication {
  import opened Wrappers
  import opened MedicationApi

  /** The message shown when the thrown value is not an `Error`. */
  const FallbackMessage: string := "お薬の登録に失敗しました。"

  /** What a rejected call throws: an `Error` with its message, or any other value. */
  datatype Thrown = ErrorObject(message: string) | NonError(description: string)

  /** How the API call settles. */
  datatype ApiOutcome = Resolved(value: string) | Rejected(thrown: Thrown)

  /** What `createMedication` does for its caller: return a value, or throw. */
  datatype CallResult = Returned(value: string) | Raised(thrown: Thrown)

  /** The text put into `error` in the `catch` block. */
  function ErrorMessage(t: Thrown): (m: string)
    ensures t.ErrorObject? ==> m == t.message
    ensures t.NonError? ==> m == FallbackMessage && m != ""
  {
    match t
    case ErrorObject(message) => message
    case NonError(_) => FallbackMessage
  }

  class MedicationHook {
    var isLoading: bool
    var error: Option<string>

    /** The hook's initial state: not loading, no error. */
    constructor ()
      ensures !isLoading && error == None
    {
      isLoading := false;
      error := None;
    }

    /** Entry of `createMedication`, before the API is consulted. */
    method Start()
      modifies this
      ensures isLoading && error == None
    {
      isLoading := true;
      error := None;
    }

    /** The `try`/`catch`/`finally` once the API call has settled. */
    method Finish(outcome: ApiOutcome) returns (r: CallResult)
      modifies this
      ensures !isLoading
      ensures outcome.Resolved? ==> r == Returned(outcome.value) && error == old(error)
      ensures outcome.Rejected? ==>
                r == Raised(outcome.thrown) && error == Some(ErrorMessage(outcome.thrown))
    {
      match outcome {
        case Resolved(value) =>
          r := Returned(value);
        case Rejected(thrown) =>
          error := Some(ErrorMessage(thrown));
          r := Raised(thrown);
      }
      isLoading := false;
    }

    /**
      `createMedication(data)`: the result is passed back unchanged and
      `error` stays cleared, or the failure is re-raised and `error` holds its
      message; either way `isLoading` ends false.
     */
    method CreateMedication(data: MedicationData, api: MedicationData -> ApiOutcome)
      returns (r: CallResult)
      modifies this
      ensures !isLoading
      ensures api(data).Resolved? ==> r == Returned(api(data).value) && error == None
      ensures api(data).Rejected? ==>
                r == Raised(api(data).thrown) && error == Some(ErrorMessage(api(data).thrown))
    {
      Start();
      r := Finish(api(data));
    }
  }
}

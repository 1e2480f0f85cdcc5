/**
  The medication form component as a state machine: three state slots
  (`formData`, `scheduleTimeInput`, `successMessage`) replaced event by event
  by the handlers, plus the submission hook the component owns.
 */
module Form {
  import opened Wrappers
  import opened StringOrder
  import opened MedicationApi
  import opened ScheduleTimes
  import opened UseMedication

  /** The form's three inputs, by their `name` attribute. */
  datatype Field = Name | ScheduleTime | IntervalHours

  /** The record the form starts from and returns to after a successful submit. */
  const EmptyRecord: MedicationData := MedicationData(Some(""), [], None)

  /** JavaScript's `value || undefined` on an input's text: the empty text is the only falsy one. */
  function OrUndefined(value: string): (o: Option<string>)
    ensures o == None <==> value == ""
    ensures o.Some? ==> o.value == value
  {
    if value == "" then None else Some(value)
  }

  /** The text an input shows for a stored field, `field || ""`. */
  function Displayed(field: Option<string>): (text: string)
    ensures field.Some? && field.value != "" ==> text == field.value
    ensures field == None ==> text == ""
  {
    match field
    case None => ""
    case Some(v) => v
  }

  /** Storing an input's text and showing it again gives back the text typed. */
  lemma DisplayedOrUndefined(value: string)
    ensures Displayed(OrUndefined(value)) == value
  {
  }

  /** Showing a stored field and storing the text again gives back the field, unless it held `""`. */
  lemma OrUndefinedDisplayed(field: Option<string>)
    requires field != Some("")
    ensures OrUndefined(Displayed(field)) == field
  {
  }

  class MedicationForm {
    const medication: MedicationHook
    var formData: MedicationData
    var successMessage: Option<string>
    var scheduleTimeInput: string

    /** Every event keeps the schedule-time list sorted. */
    ghost predicate Valid()
      reads this
    {
      Sorted(formData.scheduleTime)
    }

    /** The initial state: empty name, no times, no interval, empty buffer, no message. */
    constructor ()
      ensures formData == MedicationData(Some(""), [], None)
      ensures scheduleTimeInput == "" && successMessage == None
      ensures fresh(medication) && !medication.isLoading && medication.error == None
      ensures Valid()
    {
      medication := new MedicationHook();
      formData := EmptyRecord;
      successMessage := None;
      scheduleTimeInput := "";
    }

    /**
      `handleChange`: the time input only fills the buffer; any other input
      writes its text into its own field, an empty text as `undefined`.
     */
    method HandleChange(field: Field, value: string)
      modifies this
      ensures field == ScheduleTime ==> formData == old(formData) && scheduleTimeInput == value
      ensures field == Name ==>
                formData == old(formData).(name := if value == "" then None else Some(value))
                && scheduleTimeInput == old(scheduleTimeInput)
      ensures field == IntervalHours ==>
                formData == old(formData).(intervalHours := if value == "" then None else Some(value))
                && scheduleTimeInput == old(scheduleTimeInput)
      ensures successMessage == old(successMessage)
      ensures old(Valid()) ==> Valid()
    {
      match field {
        case Name =>
          formData := formData.(name := OrUndefined(value));
        case IntervalHours =>
          formData := formData.(intervalHours := OrUndefined(value));
        case ScheduleTime =>
          scheduleTimeInput := value;
      }
    }

    /**
      `handleAddScheduleTime`: nothing happens while the buffer is empty;
      otherwise the buffered time joins the list, the list is sorted whatever
      order it was in, duplicates are kept, and the buffer is cleared.
     */
    method HandleAddScheduleTime()
      modifies this
      ensures old(scheduleTimeInput) == "" ==>
                formData == old(formData) && scheduleTimeInput == old(scheduleTimeInput)
      ensures old(scheduleTimeInput) != "" ==>
                && formData.name == old(formData.name)
                && formData.intervalHours == old(formData.intervalHours)
                && formData.scheduleTime == Sort(old(formData.scheduleTime) + [old(scheduleTimeInput)])
                && Sorted(formData.scheduleTime)
                && multiset(formData.scheduleTime)
                   == multiset(old(formData.scheduleTime)) + multiset{old(scheduleTimeInput)}
                && |formData.scheduleTime| == |old(formData.scheduleTime)| + 1
                && scheduleTimeInput == ""
      ensures successMessage == old(successMessage)
      ensures old(Valid()) ==> Valid()
    {
      if scheduleTimeInput != "" {
        var newScheduleTimes := Sort(formData.scheduleTime + [scheduleTimeInput]);
        formData := formData.(scheduleTime := newScheduleTimes);
        scheduleTimeInput := "";
      }
    }

    /**
      `handleRemoveTime`: every entry equal to the chosen time goes, the other
      entries stay in their order, and nothing else changes.
     */
    method HandleRemoveTime(timeToRemove: string)
      modifies this
      ensures formData.name == old(formData.name)
      ensures formData.intervalHours == old(formData.intervalHours)
      ensures formData.scheduleTime == RemoveAll(old(formData.scheduleTime), timeToRemove)
      ensures timeToRemove !in formData.scheduleTime
      ensures multiset(formData.scheduleTime) == multiset(old(formData.scheduleTime))[timeToRemove := 0]
      ensures Subsequence(formData.scheduleTime, old(formData.scheduleTime))
      ensures scheduleTimeInput == old(scheduleTimeInput)
      ensures successMessage == old(successMessage)
      ensures old(Valid()) ==> Valid()
    {
      if Sorted(formData.scheduleTime) {
        RemoveAllKeepsSorted(formData.scheduleTime, timeToRemove);
      }
      formData := formData.(scheduleTime := RemoveAll(formData.scheduleTime, timeToRemove));
    }

    /**
      `handleSubmit`: the current record goes to `createMedication`. On
      success the result becomes the success message and the record is reset;
      on failure the form is left as it was and the hook's `error` says why.
      The time buffer is never touched, and loading is over either way.
     */
    method HandleSubmit(api: MedicationData -> ApiOutcome)
      modifies this, medication
      ensures scheduleTimeInput == old(scheduleTimeInput)
      ensures !medication.isLoading
      ensures api(old(formData)).Resolved? ==>
                && formData == EmptyRecord
                && successMessage == Some(api(old(formData)).value)
                && medication.error == None
      ensures api(old(formData)).Rejected? ==>
                && formData == old(formData)
                && successMessage == old(successMessage)
                && medication.error == Some(ErrorMessage(api(old(formData)).thrown))
      ensures old(Valid()) ==> Valid()
    {
      var result := medication.CreateMedication(formData, api);
      match result {
        case Returned(value) =>
          successMessage := Some(value);
          formData := EmptyRecord;
        case Raised(_) =>
      }
    }

    /** The auto-dismiss timer firing: the success message goes, nothing else changes. */
    method DismissSuccess()
      modifies this
      ensures successMessage == None
      ensures formData == old(formData) && scheduleTimeInput == old(scheduleTimeInput)
      ensures old(Valid()) ==> Valid()
    {
      successMessage := None;
    }
  }

  /** A time that sorts before the only one in the list goes first. */
  lemma AddEarlierTime(a: string, x: string)
    requires LexLe(x, a)
    ensures Sort([a] + [x]) == [x, a]
  {
    SortAfterAppend([a], x);
  }

  /** A time that sorts between the two in a sorted list goes in between. */
  lemma AddMiddleTime(a: string, b: string, x: string)
    requires LexLe(a, b) && !LexLe(x, a) && LexLe(x, b)
    ensures Sort([a, b] + [x]) == [a, x, b]
  {
    assert Sorted([a, b]);
    SortAfterAppend([a, b], x);
    assert [a, b][1..] == [b];
  }

  /** Removing the middle one of three different times keeps the outer two. */
  lemma RemoveMiddleTime(a: string, x: string, b: string)
    requires a != x && b != x
    ensures RemoveAll([a, x, b], x) == [a, b]
  {
    assert [a, x, b][1..] == [x, b] && [x, b][1..] == [b] && [b][1..] == [];
    assert RemoveAll([b], x) == [b];
    assert RemoveAll([x, b], x) == [b];
  }

  /**
    Times entered out of order end up sorted, and removing one keeps the
    others in order.
   */
  method ScheduleScenario()
  {
    var form := new MedicationForm();
    form.HandleChange(ScheduleTime, "20:00");
    form.HandleAddScheduleTime();
    SortAfterAppend([], "20:00");
    assert form.formData.scheduleTime == ["20:00"];
    form.HandleChange(ScheduleTime, "08:00");
    form.HandleAddScheduleTime();
    AddEarlierTime("20:00", "08:00");
    assert form.formData.scheduleTime == ["08:00", "20:00"];
    form.HandleChange(ScheduleTime, "12:00");
    form.HandleAddScheduleTime();
    AddMiddleTime("08:00", "20:00", "12:00");
    assert form.formData.scheduleTime == ["08:00", "12:00", "20:00"];
    form.HandleRemoveTime("12:00");
    RemoveMiddleTime("08:00", "12:00", "20:00");
    assert form.formData.scheduleTime == ["08:00", "20:00"];
    // the buffer was cleared by the last add, so adding again changes nothing
    form.HandleAddScheduleTime();
    assert form.formData.scheduleTime == ["08:00", "20:00"];
  }

  /**
    A rejected submit leaves the record in place and reports the fallback
    message; an accepted one resets the record and shows the result until
    it is dismissed.
   */
  method SubmitScenario()
  {
    var form := new MedicationForm();
    form.HandleChange(Name, "Aspirin");
    form.HandleChange(IntervalHours, "8");
    var sent := MedicationData(Some("Aspirin"), [], Some("8"));
    assert form.formData == sent;

    form.HandleSubmit(d => Rejected(NonError("offline")));
    assert form.formData == sent && form.successMessage == None;
    assert form.medication.error == Some(FallbackMessage);

    form.HandleSubmit(d => if d == sent then Resolved("registered") else Rejected(ErrorObject("bad")));
    assert form.formData == EmptyRecord && form.successMessage == Some("registered");
    assert form.medication.error == None && !form.medication.isLoading;

    form.DismissSuccess();
    assert form.successMessage == None;
  }
}

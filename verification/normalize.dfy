/** The input clean-up that `createTask` and `updateTask` both apply to a submitted task. */
module Normalize {
  import opened Wrappers
  import opened Text
  import opened Records

  const DefaultEstimatedMinutes := 30
  const DefaultCategory := "task"

  /** The category whitelist. */
  predicate IsAllowedCategory(c: string)
  {
    c == "task" || c == "companion"
  }

  /** Neither whitelisted category carries white space at its ends. */
  lemma AllowedCategoryIsTrimmed(c: string)
    requires IsAllowedCategory(c)
    ensures IsTrimmed(c)
  {
    if c == "task" {
      assert c[0] == 't' && c[|c| - 1] == 'k';
    } else {
      assert c[0] == 'c' && c[|c| - 1] == 'n';
    }
  }

  /** A submitted category that is accepted: blank (the default applies) or on the whitelist
      once trimmed. */
  predicate IsKnownCategory(c: string)
  {
    var t := TrimSpace(c);
    t == "" || IsAllowedCategory(t)
  }

  /** `scheduled_at` as submitted, once trimmed and run through the RFC 3339 parser:
      blank, a parsed instant, or text the parser refuses. */
  datatype ScheduleInput = Blank | Rfc3339(at: Time) | Malformed

  /** The JSON body of a create or edit request. */
  datatype TaskInput = TaskInput(
    title: string,
    description: string,
    category: string,
    locationText: string,
    estimatedMinutes: int,
    prepayAmountCents: int,
    isImmediate: bool,
    scheduledAt: ScheduleInput)

  /** The editable columns of a task, as they are written to the store. */
  datatype Fields = Fields(
    title: string,
    description: string,
    category: string,
    locationText: string,
    estimatedMinutes: int,
    prepayAmountCents: int,
    isImmediate: bool,
    scheduledAt: Option<Time>)

  /** What every accepted submission looks like once normalised. */
  predicate WellFormed(f: Fields)
  {
    && f.title != [] && IsTrimmed(f.title)
    && IsTrimmed(f.description) && IsTrimmed(f.locationText)
    && IsAllowedCategory(f.category)
    && f.estimatedMinutes > 0
    && f.prepayAmountCents >= 0
    && (f.isImmediate ==> f.scheduledAt.Some?)
  }

  /** Trims the text fields, fills in the defaults, clamps the prepay amount and resolves the
      schedule; refuses a blank title, a category off the whitelist and an unparsable schedule,
      in that order. An immediate task is scheduled at `now`, whatever `scheduledAt` holds. */
  function NormalizeInput(input: TaskInput, now: Time): (r: Result<Fields, Error>)
    ensures TrimSpace(input.title) == "" ==> r == Failure(TitleRequired)
    ensures (TrimSpace(input.title) != "" && !IsKnownCategory(input.category))
              ==> r == Failure(InvalidCategory)
    ensures (TrimSpace(input.title) != "" && IsKnownCategory(input.category))
              ==> (r.Failure? <==> !input.isImmediate && input.scheduledAt.Malformed?)
    ensures (TrimSpace(input.title) != "" && IsKnownCategory(input.category)
             && !input.isImmediate && input.scheduledAt.Malformed?)
              ==> r == Failure(ScheduleNotRfc3339)
    ensures r.Failure? ==> r.error in {TitleRequired, InvalidCategory, ScheduleNotRfc3339}
    ensures r.Success? ==>
              var f := r.value;
              && WellFormed(f)
              && f.title == TrimSpace(input.title)
              && f.description == TrimSpace(input.description)
              && f.locationText == TrimSpace(input.locationText)
              && (TrimSpace(input.category) != "" ==> f.category == TrimSpace(input.category))
              && (TrimSpace(input.category) == "" ==> f.category == DefaultCategory)
              && (input.estimatedMinutes > 0 ==> f.estimatedMinutes == input.estimatedMinutes)
              && (input.estimatedMinutes <= 0 ==> f.estimatedMinutes == DefaultEstimatedMinutes)
              && (input.prepayAmountCents >= 0 ==> f.prepayAmountCents == input.prepayAmountCents)
              && (input.prepayAmountCents < 0 ==> f.prepayAmountCents == 0)
              && f.isImmediate == input.isImmediate
              && (input.isImmediate ==> f.scheduledAt == Some(now))
              && (!input.isImmediate && input.scheduledAt.Blank? ==> f.scheduledAt == None)
              && (!input.isImmediate && input.scheduledAt.Rfc3339? ==> f.scheduledAt == Some(input.scheduledAt.at))
  {
    var title := TrimSpace(input.title);
    var trimmedCategory := TrimSpace(input.category);
    var category := if trimmedCategory == "" then DefaultCategory else trimmedCategory;
    var minutes := if input.estimatedMinutes <= 0 then DefaultEstimatedMinutes else input.estimatedMinutes;
    var prepay := if input.prepayAmountCents < 0 then 0 else input.prepayAmountCents;
    if title == "" then Failure(TitleRequired)
    else if !IsAllowedCategory(category) then Failure(InvalidCategory)
    else if !input.isImmediate && input.scheduledAt.Malformed? then Failure(ScheduleNotRfc3339)
    else
      var when :=
        if input.isImmediate then Some(now)
        else if input.scheduledAt.Rfc3339? then Some(input.scheduledAt.at)
        else None;
      Success(Fields(title, TrimSpace(input.description), category, TrimSpace(input.locationText),
                     minutes, prepay, input.isImmediate, when))
  }

  /** The request body that resubmits the stored fields `f` unchanged. */
  function AsInput(f: Fields): TaskInput
  {
    TaskInput(f.title, f.description, f.category, f.locationText, f.estimatedMinutes,
              f.prepayAmountCents, f.isImmediate,
              if f.scheduledAt.Some? then Rfc3339(f.scheduledAt.value) else Blank)
  }

  /** Resubmitting a task's own normalised fields gives them back unchanged, except that an
      immediate task is rescheduled at the new `now`. */
  lemma {:induction false} NormalizeResubmit(f: Fields, now: Time)
    requires WellFormed(f)
    ensures NormalizeInput(AsInput(f), now)
              == Success(if f.isImmediate then f.(scheduledAt := Some(now)) else f)
  {
    TrimmedIsFixpoint(f.title);
    TrimmedIsFixpoint(f.description);
    TrimmedIsFixpoint(f.locationText);
    AllowedCategoryIsTrimmed(f.category);
    TrimmedIsFixpoint(f.category);
  }

  /** Normalising is idempotent: normalising the normalised form of a scheduled (not immediate)
      submission changes nothing. */
  lemma NormalizeIdempotent(input: TaskInput, now: Time, later: Time)
    requires NormalizeInput(input, now).Success?
    requires !input.isImmediate
    ensures NormalizeInput(AsInput(NormalizeInput(input, now).value), later) == NormalizeInput(input, now)
  {
    NormalizeResubmit(NormalizeInput(input, now).value, later);
  }
}

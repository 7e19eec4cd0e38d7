/** The submit lifecycle of the useFormSubmit hook (src/hooks/useFormSubmit.ts):
    idle, submitting, then a success or error status, and reset. The awaited
    onSubmit call and the callbacks are outside the model; how each of them
    ends is passed in. */
module FormSubmit {
  import opened Wrappers

  /** The status type shown under the form; None stands for null. */
  datatype StatusType = Success | Error

  /** The hook's formState cell. */
  datatype FormState = FormState(isSubmitting: bool, statusType: Option<StatusType>, message: string)

  /** What onSubmit resolves to, and what handleSubmit returns. */
  datatype SubmitResult = SubmitResult(success: bool, message: string)

  /** A thrown value: an Error object with its message, or anything else. */
  datatype Thrown = ErrorObject(message: string) | NonError

  /** How the awaited onSubmit call settled. */
  datatype Outcome = Resolved(result: SubmitResult) | Threw(error: Thrown)

  /** The optional onSuccess callback and how it ends when called. */
  datatype Callback = Absent | Returns | Throws(error: Thrown)

  /** Everything one settled submit produces: the new state, the value
      returned to the caller, whether onSuccess ran, and the value onError
      was called with (None when it was not called). */
  datatype Settlement = Settlement(state: FormState, returned: SubmitResult,
                                   onSuccessCalled: bool, onErrorArg: Option<Thrown>)

  const DefaultErrorMessage := "An error occurred"

  /** The state before any submit, and after a reset. */
  const Idle := FormState(false, None, "")

  /** The state while onSubmit is pending. */
  const Submitting := FormState(true, None, "")

  /** The message recorded for a thrown value. */
  function ErrorMessage(e: Thrown): (m: string)
    ensures e.ErrorObject? ==> m == e.message
    ensures e.NonError? ==> m == DefaultErrorMessage
  {
    match e
    case ErrorObject(msg) => msg
    case NonError => DefaultErrorMessage
  }

  /** The catch branch: an error status with the thrown message, onError
      called with the thrown value, and a failed result returned. */
  function Caught(e: Thrown, hasOnError: bool, onSuccessCalled: bool): Settlement {
    var msg := ErrorMessage(e);
    Settlement(FormState(false, Some(Error), msg), SubmitResult(false, msg),
               onSuccessCalled, if hasOnError then Some(e) else None)
  }

  /** The try block after the await, with the catch branch for a throw from
      onSubmit or from onSuccess. */
  function Settle(outcome: Outcome, onSuccess: Callback, hasOnError: bool): Settlement {
    match outcome
    case Threw(e) => Caught(e, hasOnError, false)
    case Resolved(r) =>
      var shown := FormState(false, Some(if r.success then Success else Error), r.message);
      if r.success && !onSuccess.Absent? then
        (match onSuccess
         case Throws(e) => Caught(e, hasOnError, true)
         case _ => Settlement(shown, r, true, None))
      else Settlement(shown, r, false, None)
  }

  /** A resolved submit whose success callback does not throw shows the
      result: success exactly when the result says so, with its message; the
      result is returned unchanged and onSuccess ran exactly when the result
      succeeded and a callback was given. */
  lemma SettleResolved(r: SubmitResult, onSuccess: Callback, hasOnError: bool)
    requires !onSuccess.Throws?
    ensures var s := Settle(Resolved(r), onSuccess, hasOnError);
            && !s.state.isSubmitting
            && (s.state.statusType == Some(Success) <==> r.success)
            && s.state.statusType != None
            && s.state.message == r.message
            && s.returned == r
            && (s.onSuccessCalled <==> r.success && onSuccess == Returns)
            && s.onErrorArg == None
  {
  }

  /** A throw from onSubmit shows an error with the thrown message, returns
      a failed result with that message, never runs onSuccess, and hands the
      thrown value to onError when there is one. */
  lemma SettleThrown(e: Thrown, onSuccess: Callback, hasOnError: bool)
    ensures var s := Settle(Threw(e), onSuccess, hasOnError);
            && s.state == FormState(false, Some(Error), ErrorMessage(e))
            && s.returned == SubmitResult(false, ErrorMessage(e))
            && !s.onSuccessCalled
            && (s.onErrorArg == Some(e) <==> hasOnError)
            && (s.onErrorArg == None <==> !hasOnError)
  {
  }

  /** onSuccess runs inside the try: when it throws, a successful result is
      reported as an error with the callback's message, and the caller gets
      a failed result although the submission itself succeeded. */
  lemma SuccessCallbackThrowOverwrites(r: SubmitResult, e: Thrown, hasOnError: bool)
    requires r.success
    ensures var s := Settle(Resolved(r), Throws(e), hasOnError);
            && s.state.statusType == Some(Error)
            && s.state.message == ErrorMessage(e)
            && !s.returned.success
            && s.onSuccessCalled
  {
  }

  /** Whatever happens, a settled submit is no longer submitting, has a
      status type, and returns exactly what it shows: success precisely when
      the status is a success, and the status message. */
  lemma SettleAgreesWithStatus(outcome: Outcome, onSuccess: Callback, hasOnError: bool)
    ensures var s := Settle(outcome, onSuccess, hasOnError);
            && !s.state.isSubmitting
            && s.state.statusType.Some?
            && (s.returned.success <==> s.state.statusType == Some(Success))
            && s.returned.message == s.state.message
            && (s.onErrorArg.Some? ==> s.state.statusType == Some(Error))
  {
  }

  /** The formState cell of one mounted hook. */
  class FormSubmitter {
    var isSubmitting: bool
    var statusType: Option<StatusType>
    var message: string

    function State(): FormState
      reads this
    {
      FormState(isSubmitting, statusType, message)
    }

    /** useState's initial value. */
    constructor ()
      ensures State() == Idle
    {
      isSubmitting, statusType, message := false, None, "";
    }

    /** The first statement of handleSubmit, before onSubmit is awaited. */
    method BeginSubmit()
      modifies this
      ensures State() == Submitting
    {
      isSubmitting, statusType, message := true, None, "";
    }

    /** The rest of handleSubmit, once onSubmit has settled. */
    method CompleteSubmit(outcome: Outcome, onSuccess: Callback, hasOnError: bool)
      returns (returned: SubmitResult, onSuccessCalled: bool, onErrorArg: Option<Thrown>)
      modifies this
      ensures State() == Settle(outcome, onSuccess, hasOnError).state
      ensures returned == Settle(outcome, onSuccess, hasOnError).returned
      ensures onSuccessCalled == Settle(outcome, onSuccess, hasOnError).onSuccessCalled
      ensures onErrorArg == Settle(outcome, onSuccess, hasOnError).onErrorArg
      ensures !isSubmitting && (returned.success <==> statusType == Some(Success))
    {
      var thrown: Option<Thrown> := None;
      onSuccessCalled := false;
      match outcome {
        case Threw(e) =>
          thrown := Some(e);
        case Resolved(r) =>
          isSubmitting := false;
          statusType := Some(if r.success then Success else Error);
          message := r.message;
          if r.success && !onSuccess.Absent? {
            onSuccessCalled := true;
            if onSuccess.Throws? {
              thrown := Some(onSuccess.error);
            }
          }
          returned := r;
      }
      onErrorArg := None;
      if thrown.Some? {
        var msg := ErrorMessage(thrown.value);
        isSubmitting, statusType, message := false, Some(Error), msg;
        if hasOnError {
          onErrorArg := thrown;
        }
        returned := SubmitResult(false, msg);
      }
      SettleAgreesWithStatus(outcome, onSuccess, hasOnError);
    }

    /** resetForm: back to the initial state. */
    method Reset()
      modifies this
      ensures State() == Idle
    {
      isSubmitting, statusType, message := false, None, "";
    }
  }
}

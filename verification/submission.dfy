/** The contact-form submission guard: the `isFormSubmitting` flag, the single outbound
    request, and what success and failure leave behind. The request itself is not
    modelled; its outcome is an input. */
module Submission {
  import opened Wrappers
  import opened Text
  import opened Variants
  import opened Validation

  /** The parts of the parsed JSON reply the code reads: `errors` when it is an array,
      with each element's `message` (None when the element has none). */
  datatype Body = Body(errors: Option<seq<Option<string>>>)

  /** What the one `fetch` produced: a rejected promise (with the error's text), or a
      response with its `ok` status and its JSON body (None when there was none or it
      did not parse). */
  datatype Reply =
    | NetworkError(text: string)
    | Response(ok: bool, body: Option<Body>)

  /** How `submitFormData` settles: it resolves, or it throws an Error with `reason`. */
  datatype Result = Delivered | Failed(reason: string)

  const GenericReason := "Submission failed. Please try again."

  /** `e.message` for each element; `join` prints a missing message as nothing. */
  function Messages(errors: seq<Option<string>>): (r: seq<string>)
    ensures |r| == |errors|
    ensures forall k :: 0 <= k < |errors| ==> r[k] == errors[k].GetOr([])
  {
    if errors == [] then [] else [errors[0].GetOr([])] + Messages(errors[1..])
  }

  /** `submitFormData` (current script) on a reply: success exactly when the response is
      `ok`; a failed response that carries an `errors` array throws the messages joined
      with ", ", any other failed response the generic reason, and a network error its
      own text. */
  function SubmitResult(reply: Reply): (r: Result)
    ensures r.Delivered? <==> reply.Response? && reply.ok
    ensures reply.NetworkError? ==> r == Failed(reply.text)
    ensures reply.Response? && !reply.ok && reply.body.Some? && reply.body.value.errors.Some? ==>
              r == Failed(Join(Messages(reply.body.value.errors.value), ", "))
    ensures reply.Response? && !reply.ok && (reply.body.None? || reply.body.value.errors.None?) ==>
              r == Failed(GenericReason)
  {
    match reply
    case NetworkError(text) => Failed(text)
    case Response(ok, body) =>
      if ok then Delivered
      else if body.Some? && body.value.errors.Some? then
        Failed(Join(Messages(body.value.errors.value), ", "))
      else Failed(GenericReason)
  }

  /** The reasons a failed response with an `errors` array carries, as the visitor's
      console shows them: each message in order, a missing one as nothing, separated by
      ", "; an empty array gives the empty reason. */
  lemma ServerReasonsJoined(a: string, b: string)
    ensures SubmitResult(Response(false, Some(Body(Some([Some(a), Some(b)]))))) == Failed(a + ", " + b)
    ensures SubmitResult(Response(false, Some(Body(Some([None, Some(b)]))))) == Failed(", " + b)
    ensures SubmitResult(Response(false, Some(Body(Some([Some(a)]))))) == Failed(a)
    ensures SubmitResult(Response(false, Some(Body(Some([]))))) == Failed("")
  {
    assert Messages([Some(a), Some(b)]) == [a, b];
    assert Messages([None, Some(b)]) == ["", b];
    assert Messages([Some(a)]) == [a];
    assert Join([a, b], ", ") == a + ", " + Join([b], ", ");
  }

  /** The status line under the form. A success banner without text is the page's own
      success element, which the legacy script reveals without writing to it. */
  datatype Banner = NoBanner | SuccessBanner(note: Option<string>) | ErrorBanner(text: string)

  const CurrentSuccessText := "تم إرسال رسالتك بنجاح. سنعود إليك قريبًا."
  const CurrentErrorText := "حدث خطأ أثناء الإرسال. تحقق من اتصالك وحاول مرة أخرى."
  const LegacyErrorText := "Something went wrong. Please try again or contact us directly."

  /** The contact form: its fields, the values `reset()` restores, the verdict shown under
      each field, the `loading` class of the submit button, the `isFormSubmitting` flag
      and the status line. */
  datatype Form = Form(
    fields: seq<Field>,
    defaults: seq<Field>,
    shown: seq<Verdict>,
    loading: bool,
    submitting: bool,
    banner: Banner)

  /** One default and one shown verdict for every field. */
  predicate Consistent(f: Form) {
    |f.defaults| == |f.fields| && |f.shown| == |f.fields|
  }

  /** The form is at rest: nothing in flight, the button not loading. */
  predicate Idle(f: Form) {
    !f.submitting && !f.loading
  }

  /** The submit handler up to its `await`: a submit while one is in flight does nothing;
      otherwise every field is validated; an invalid form stops there; a valid one sets
      the flag and the loading state, clears the status line and sends one request.
      Returns the new form and whether a request went out. */
  function Submit(variant: Variant, letter: char -> bool, f: Form): (r: (Form, bool))
    ensures f.submitting ==> r == (f, false)
    ensures r.1 <==> !f.submitting && FormValid(variant, letter, f.fields)
    ensures r.1 ==> r.0.submitting && r.0.loading
    ensures !f.submitting && !r.1 ==> r.0.submitting == f.submitting && r.0.loading == f.loading
    ensures !f.submitting ==> r.0.shown == Verdicts(variant, letter, f.fields)
    ensures r.0.fields == f.fields && r.0.defaults == f.defaults
    ensures Consistent(f) ==> Consistent(r.0)
  {
    if f.submitting then (f, false)
    else
      var verdicts := Verdicts(variant, letter, f.fields);
      if !FormValid(variant, letter, f.fields) then (f.(shown := verdicts), false)
      else
        var banner := if variant == Current then NoBanner else f.banner;
        (f.(shown := verdicts, submitting := true, loading := true, banner := banner), true)
  }

  function AllPass(n: nat): (r: seq<Verdict>)
    ensures |r| == n && forall k :: 0 <= k < n ==> r[k] == Pass
  {
    seq(n, k => Pass)
  }

  /** The rest of the handler once the request settles. Success runs `resetForm`: the
      fields return to their defaults, every field error is cleared, and the flag and the
      loading state are reset. Failure only resets the flag and the loading state and
      shows the error line: the fields keep what the visitor typed. */
  function Complete(variant: Variant, f: Form, result: Result): (r: Form)
    requires f.submitting
    ensures Idle(r)
    ensures result.Delivered? ==> r.fields == f.defaults && r.shown == AllPass(|f.fields|)
    ensures result.Delivered? ==> r.banner.SuccessBanner?
    ensures result.Failed? ==> r.fields == f.fields && r.shown == f.shown && r.banner.ErrorBanner?
    ensures r.defaults == f.defaults
    ensures Consistent(f) ==> Consistent(r)
  {
    match result
    case Delivered =>
      var text := if variant == Current then Some(CurrentSuccessText) else None;
      f.(fields := f.defaults, shown := AllPass(|f.fields|), loading := false, submitting := false,
         banner := SuccessBanner(text))
    case Failed(_) =>
      var text := if variant == Current then CurrentErrorText else LegacyErrorText;
      f.(loading := false, submitting := false, banner := ErrorBanner(text))
  }

  /** The reason `submitFormData` throws reaches only the console: the error line the
      visitor sees is the same whatever the server said. */
  lemma ErrorLineIgnoresReason(variant: Variant, f: Form, a: string, b: string)
    requires f.submitting
    ensures Complete(variant, f, Failed(a)).banner == Complete(variant, f, Failed(b)).banner
  {
  }

  /** A failed submission leaves the form ready to resubmit what the visitor typed: the
      same fields, at rest, so the next submit validates them again. */
  lemma RetryAfterFailure(variant: Variant, letter: char -> bool, f: Form, reason: string)
    requires f.submitting && FormValid(variant, letter, f.fields)
    ensures var g := Complete(variant, f, Failed(reason));
            Idle(g) && g.fields == f.fields && Submit(variant, letter, g).1
  {
  }

  /** Repeated submits with nothing settling in between: the new form and how many
      requests went out. */
  function SubmitMany(variant: Variant, letter: char -> bool, f: Form, times: nat): (Form, nat)
    decreases times
  {
    if times == 0 then (f, 0)
    else
      var (g, sent) := Submit(variant, letter, f);
      var (h, more) := SubmitMany(variant, letter, g, times - 1);
      (h, more + (if sent then 1 else 0))
  }

  /** However often the visitor presses submit while a request is pending, at most one
      request goes out; exactly one when the form was valid and at rest. */
  lemma {:induction false} OneRequestPerSubmission(variant: Variant, letter: char -> bool, f: Form, times: nat)
    requires times > 0
    ensures SubmitMany(variant, letter, f, times).1 <= 1
    ensures !f.submitting && FormValid(variant, letter, f.fields) ==> SubmitMany(variant, letter, f, times).1 == 1
    decreases times
  {
    var (g, sent) := Submit(variant, letter, f);
    if times > 1 {
      OneRequestPerSubmission(variant, letter, g, times - 1);
      if sent {
        NothingWhileSubmitting(variant, letter, g, times - 1);
      }
    }
  }

  /** While the flag is set, submits change nothing and send nothing. */
  lemma {:induction false} NothingWhileSubmitting(variant: Variant, letter: char -> bool, f: Form, times: nat)
    requires f.submitting
    ensures SubmitMany(variant, letter, f, times) == (f, 0)
    decreases times
  {
    if times > 0 {
      NothingWhileSubmitting(variant, letter, f, times - 1);
    }
  }
}

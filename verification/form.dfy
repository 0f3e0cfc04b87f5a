/**
 The entry form as a state machine. The state is the four field values and
 the three UI flags; every handler of the component is one atomic transition.
 The simulated submission delay is split into `BeginSubmit` (validation
 passed, the form locks) and `CompleteSubmit` (the delay resolved). The
 `disabled` attributes and the two-view rendering become guards: a handler
 whose control is disabled or not on screen leaves the state unchanged.
 */
module Form {
  import opened Validation

  datatype Option<T> = None | Some(value: T)

  /** The four editable fields. */
  datatype Field = Email | Name | Product | Reason

  datatype FormState = FormState(
    email: string,
    name: string,
    product: string,
    reason: string,
    submitted: bool,   // the thank-you view is shown instead of the form
    formError: string, // the error banner; "" shows none
    isLoading: bool    // a submission is in flight
  )

  datatype Event =
    | Edit(field: Field, value: string) // an input's change handler
    | BeginSubmit                       // the form's submit handler
    | CompleteSubmit                    // the simulated delay resolved
    | FailSubmit                        // the delay rejected (never happens)
    | ResetForm                         // "Submit Another Entry"

  /** The state when the page loads. */
  const Init: FormState := FormState("", "", "", "", false, "", false)

  function Get(s: FormState, f: Field): string {
    match f
    case Email => s.email
    case Name => s.name
    case Product => s.product
    case Reason => s.reason
  }

  /** The four field values as an entry. */
  function EntryOf(s: FormState): Entry {
    Entry(s.email, s.name, s.product, s.reason)
  }

  /** What the validator says of the current fields. */
  function Check(s: FormState): Verdict {
    Validate(s.email, s.name, s.product, s.reason)
  }

  /** The form is on screen and its controls are enabled. */
  predicate Editable(s: FormState) {
    !s.isLoading && !s.submitted
  }

  /** The controls respond exactly when the form is editable: some value
      typed into a field changes the state precisely then. */
  lemma EditableIffResponsive(s: FormState)
    ensures Editable(s) <==> exists v :: EditField(s, Email, v) != s
  {
    if Editable(s) {
      assert EditField(s, Email, s.email + "x").email != s.email;
    }
  }

  /** The three UI flags agree. */
  predicate SameFlags(a: FormState, b: FormState) {
    a.submitted == b.submitted && a.formError == b.formError && a.isLoading == b.isLoading
  }

  /** A change handler: it copies the new value into its own field and does
      nothing else, validation and the error banner included. The select can
      only deliver one of its options, so another product value is ignored. */
  function EditField(s: FormState, f: Field, v: string): (r: FormState)
    ensures !Editable(s) || (f == Product && !IsOption(v)) ==> r == s
    ensures Editable(s) && (f == Product ==> IsOption(v)) ==>
              && Get(r, f) == v
              && (forall g :: g != f ==> Get(r, g) == Get(s, g))
              && SameFlags(r, s)
  {
    if !Editable(s) then s
    else
      match f
      case Email => s.(email := v)
      case Name => s.(name := v)
      case Product => if IsOption(v) then s.(product := v) else s
      case Reason => s.(reason := v)
  }

  /** The submit handler up to the delay. A failed check shows its message
      and changes nothing else; a passed check clears the banner and locks
      the form. The fields are never rewritten. */
  function Submit(s: FormState): (r: FormState)
    ensures !Editable(s) ==> r == s
    ensures Editable(s) ==> EntryOf(r) == EntryOf(s) && !r.submitted
    ensures Editable(s) ==> (r.isLoading <==> Check(s).Accepted?)
    ensures Editable(s) && Check(s).Rejected? ==> r.formError == Message(Check(s).problem)
    ensures Editable(s) && Check(s).Accepted? ==> r.formError == ""
  {
    if !Editable(s) then s
    else
      match Check(s)
      case Rejected(p) => s.(formError := Message(p))
      case Accepted(_) => s.(formError := "", isLoading := true)
  }

  /** The delay resolved: the thank-you view replaces the form and the lock
      is released. Without a submission in flight there is nothing to
      resolve. */
  function Complete(s: FormState): (r: FormState)
    ensures !s.isLoading ==> r == s
    ensures s.isLoading ==>
              r.submitted && !r.isLoading && r.formError == s.formError && EntryOf(r) == EntryOf(s)
  {
    if s.isLoading then s.(submitted := true, isLoading := false) else s
  }

  /** The `catch` branch: the generic message is shown, the lock released and
      the form stays on screen. */
  function FailSubmission(s: FormState): (r: FormState)
    ensures !s.isLoading ==> r == s
    ensures s.isLoading ==>
              && !r.isLoading && r.submitted == s.submitted
              && r.formError == Message(SubmitFailed) && EntryOf(r) == EntryOf(s)
  {
    if s.isLoading then s.(formError := Message(SubmitFailed), isLoading := false) else s
  }

  /** "Submit Another Entry", shown only in the thank-you view: it empties the
      four fields and returns to the form, leaving the banner and the lock as
      they were. */
  function Reset(s: FormState): (r: FormState)
    ensures !s.submitted ==> r == s
    ensures s.submitted ==>
              && EntryOf(r) == Entry("", "", "", "") && !r.submitted
              && r.formError == s.formError && r.isLoading == s.isLoading
  {
    if s.submitted then s.(email := "", name := "", product := "", reason := "", submitted := false)
    else s
  }

  /** One event, handed to its handler. Only the completion and the reset
      switch between the form and the thank-you view; only edits and the
      reset touch the fields; only a submit takes the lock. */
  function Step(s: FormState, e: Event): (r: FormState)
    ensures r.submitted != s.submitted ==>
              (e == CompleteSubmit && r.submitted) || (e == ResetForm && !r.submitted)
    ensures EntryOf(r) != EntryOf(s) ==> e.Edit? || e == ResetForm
    ensures r.isLoading && !s.isLoading ==> e == BeginSubmit
  {
    match e
    case Edit(f, v) => EditField(s, f, v)
    case BeginSubmit => Submit(s)
    case CompleteSubmit => Complete(s)
    case FailSubmit => FailSubmission(s)
    case ResetForm => Reset(s)
  }

  /** The entry handed to the log by an event: the in-flight values, when the
      delay resolves. An entry is logged whenever the event moves the page
      into the thank-you view, only when the delay resolves and releases the
      lock into that view, and it is the entry that view holds. */
  function Logged(s: FormState, e: Event): (r: Option<Entry>)
    ensures !s.submitted && Step(s, e).submitted ==> r.Some?
    ensures r.Some? ==>
              Step(s, e).submitted && !Step(s, e).isLoading && r.value == EntryOf(Step(s, e))
    ensures r.Some? ==> e == CompleteSubmit && s.isLoading
  {
    if e == CompleteSubmit && s.isLoading then Some(EntryOf(s)) else None
  }

  /** A sequence of events, in order. Without an edit or a reset among them
      the fields stay as they were; without a reset a thank-you view stays. */
  function Run(s: FormState, es: seq<Event>): (r: FormState)
    ensures (forall i :: 0 <= i < |es| ==> !es[i].Edit? && es[i] != ResetForm) ==>
              EntryOf(r) == EntryOf(s)
    ensures s.submitted && (forall i :: 0 <= i < |es| ==> es[i] != ResetForm) ==> r.submitted
    decreases |es|
  {
    if es == [] then s else Run(Step(s, es[0]), es[1..])
  }

  /** What holds of every state the page can reach: the thank-you view and
      the lock never coexist, the product is one of the select's options,
      while locked or thanked the fields form an accepted entry and no banner
      shows, and the banner only ever holds one of the form's messages. */
  ghost predicate Inv(s: FormState) {
    && !(s.submitted && s.isLoading)
    && IsOption(s.product)
    && (s.isLoading || s.submitted ==> s.formError == "" && Check(s).Accepted?)
    && (s.formError == "" || exists p :: s.formError == Message(p))
  }

  lemma InitInv()
    ensures Inv(Init)
  {
  }

  /** Every event keeps the invariant. */
  lemma StepInv(s: FormState, e: Event)
    requires Inv(s)
    ensures Inv(Step(s, e))
  {
    match e
    case Edit(f, v) =>
    case BeginSubmit =>
      if Editable(s) && Check(s).Rejected? {
        assert Submit(s).formError == Message(Check(s).problem);
      }
    case CompleteSubmit =>
    case FailSubmit =>
      if s.isLoading {
        assert FailSubmission(s).formError == Message(SubmitFailed);
      }
    case ResetForm =>
  }

  /** Every sequence of events keeps the invariant. */
  lemma {:induction false} RunInv(s: FormState, es: seq<Event>)
    requires Inv(s)
    ensures Inv(Run(s, es))
    decreases |es|
  {
    if es != [] {
      StepInv(s, es[0]);
      RunInv(Step(s, es[0]), es[1..]);
    }
  }

  /** Every reachable state satisfies the invariant. */
  lemma ReachableInv(es: seq<Event>)
    ensures Inv(Run(Init, es))
  {
    InitInv();
    RunInv(Init, es);
  }

  /** The entry handed to the log is always one the validator accepted, with
      every value exactly as typed. */
  lemma LoggedIsAccepted(s: FormState, e: Event)
    requires Inv(s)
    requires Logged(s, e).Some?
    ensures Validate(s.email, s.name, s.product, s.reason) == Accepted(Logged(s, e).value)
  {
    assert e == CompleteSubmit && s.isLoading;
    var v := Check(s);
    assert v.Accepted?;
    assert v.entry == EntryOf(s);
  }

  /** While a submission is in flight, edits and submits are no-ops: at most
      one submission is ever in flight. */
  lemma LoadingLock(s: FormState, f: Field, v: string)
    requires s.isLoading
    ensures Step(s, Edit(f, v)) == s
    ensures Step(s, BeginSubmit) == s
  {
  }

  /** A failed submit changes only the banner. */
  lemma RejectedSubmitOnlySetsError(s: FormState)
    requires Editable(s) && Check(s).Rejected?
    ensures Step(s, BeginSubmit) == s.(formError := Message(Check(s).problem))
  {
  }

  /** Submitting twice in a row is the same as submitting once: a rejected
      entry shows the same message again, an accepted one is locked. */
  lemma SubmitIdempotent(s: FormState)
    ensures Submit(Submit(s)) == Submit(s)
  {
  }

  /** An accepted submit followed by the delay resolving ends in the
      thank-you view with the banner cleared and the fields untouched. */
  lemma SubmitThenComplete(s: FormState)
    requires Editable(s) && Check(s).Accepted?
    ensures Complete(Submit(s)) == s.(submitted := true, formError := "")
    ensures Logged(Submit(s), CompleteSubmit) == Some(EntryOf(s))
  {
  }

  /** In a reachable thank-you view, "Submit Another Entry" returns the page
      to exactly its initial state. */
  lemma ResetReturnsToInit(s: FormState)
    requires Inv(s) && s.submitted
    ensures Reset(s) == Init
  {
  }

  /** Edits of different fields commute. */
  lemma EditsCommute(s: FormState, f: Field, v: string, g: Field, w: string)
    requires f != g
    ensures EditField(EditField(s, f, v), g, w) == EditField(EditField(s, g, w), f, v)
  {
  }

  /** The last edit of a field wins, whether or not the first one was
      ignored. */
  lemma LastEditWins(s: FormState, f: Field, v: string, w: string)
    requires f == Product ==> IsOption(w)
    ensures EditField(EditField(s, f, v), f, w) == EditField(s, f, w)
  {
  }

  /** Filling in a valid entry from the initial page, submitting and waiting
      reaches the thank-you view with no banner, and the entry logged on the
      way is the one typed. */
  lemma HappyPath(p: string)
    requires p in Products
    ensures var s := Run(Init, SampleSession(p));
            && Logged(s, CompleteSubmit) == Some(Entry("user@example.com", "tester", p, "because"))
            && Complete(s) == FormState("user@example.com", "tester", p, "because", true, "", false)
  {
    var filled := FillInResult(p);
    SessionSubmits(p);
    FilledAccepted(p);
    SubmitThenComplete(filled);
  }

  /** The state after typing the sample entry into the initial page. */
  function FillInResult(p: string): FormState {
    FormState("user@example.com", "tester", p, "because", false, "", false)
  }

  /** The sample session ends in the submit handler's state for the typed
      entry. */
  lemma SessionSubmits(p: string)
    requires p in Products
    ensures Run(Init, SampleSession(p)) == Submit(FillInResult(p))
  {
    FillIn(p);
    RunAppend(Init, Typing(p), [BeginSubmit]);
    RunOne(FillInResult(p), BeginSubmit);
  }

  /** Running a single event is taking one step. */
  lemma RunOne(s: FormState, e: Event)
    ensures Run(s, [e]) == Step(s, e)
  {
    assert [e][1..] == [];
  }

  /** The typed sample entry passes validation. */
  lemma FilledAccepted(p: string)
    requires p in Products
    ensures Check(FillInResult(p)).Accepted?
  {
    WellFormedEntryExample(p);
  }

  /** The events of typing the sample entry into the four fields. */
  function Typing(p: string): seq<Event> {
    [Edit(Email, "user@example.com"), Edit(Name, "tester"), Edit(Product, p), Edit(Reason, "because")]
  }

  /** The events of typing the sample entry and pressing "Submit Entry". */
  function SampleSession(p: string): seq<Event> {
    Typing(p) + [BeginSubmit]
  }

  /** Typing the sample entry into the initial page. */
  lemma FillIn(p: string)
    requires p in Products
    ensures Run(Init, Typing(p)) == FillInResult(p)
  {
    var es := Typing(p);
    var s1 := Step(Init, es[0]);
    var s2 := Step(s1, es[1]);
    var s3 := Step(s2, es[2]);
    var s4 := Step(s3, es[3]);
    assert s4 == FillInResult(p);
    assert Run(Init, es) == Run(s1, es[1..]);
    assert Run(s1, es[1..]) == Run(s2, es[2..]) by { assert es[1..][1..] == es[2..]; }
    assert Run(s2, es[2..]) == Run(s3, es[3..]) by { assert es[2..][1..] == es[3..]; }
    assert Run(s3, es[3..]) == Run(s4, []) by { assert es[3..][1..] == []; }
  }

  /** Running two sequences of events in turn is running their
      concatenation. */
  lemma {:induction false} RunAppend(s: FormState, xs: seq<Event>, ys: seq<Event>)
    ensures Run(s, xs + ys) == Run(Run(s, xs), ys)
    decreases |xs|
  {
    if xs == [] {
      assert xs + ys == ys;
    } else {
      assert (xs + ys)[0] == xs[0];
      assert (xs + ys)[1..] == xs[1..] + ys;
      RunAppend(Step(s, xs[0]), xs[1..], ys);
    }
  }
}

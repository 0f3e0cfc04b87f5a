/**
 The submit-time validation of the giveaway entry form: five checks in a fixed
 order, the first failure deciding the message. Emptiness is tested on the
 trimmed text, but an accepted entry carries the values exactly as typed.
 */
module Validation {
  import opened Text
  import opened EmailPattern

  /** The offerings, in display order. */
  const Products: seq<string> := [
    "Canva Pro (Canva For Education Student Access)",
    "Microsoft Office 365 E5 Developer",
    "Autodesk",
    "JetBrains"
  ]

  /** The values of the select's options in display order: the placeholder,
      then one option per offering. */
  const SelectOptions: seq<string> := [""] + Products

  /** A value the product select can hold: the value of one of its options,
      that is, the placeholder `""` or one of the offerings. */
  predicate IsOption(v: string): (b: bool)
    ensures b <==> v == "" || v in Products
  {
    v in SelectOptions
  }

  /** The four values of one giveaway entry. */
  datatype Entry = Entry(email: string, name: string, product: string, reason: string)

  /** Everything the form can report: the five validation failures and the
      failure of the submission itself. */
  datatype Problem =
    | MissingEmail
    | MissingName
    | MissingProduct
    | MissingReason
    | InvalidEmail
    | SubmitFailed

  /** The text shown for each problem. */
  function Message(p: Problem): (m: string)
    ensures m != ""
  {
    match p
    case MissingEmail => "Please enter your email address"
    case MissingName => "Please enter your PHCorner name"
    case MissingProduct => "Please select a product/service"
    case MissingReason => "Please provide a reason for why you should win"
    case InvalidEmail => "Please enter a valid email address"
    case SubmitFailed => "Something went wrong. Please try again."
  }

  /** The outcome of a validation pass. */
  datatype Verdict = Accepted(entry: Entry) | Rejected(problem: Problem)

  /** The validation pass stated over the reference notions: a field is
      missing when it is blank (or, for the product, empty), and the email is
      malformed when the regular expression has no match. The first failing
      check in source order decides. */
  ghost function Expected(email: string, name: string, product: string, reason: string): Verdict {
    if IsBlank(email) then Rejected(MissingEmail)
    else if IsBlank(name) then Rejected(MissingName)
    else if product == "" then Rejected(MissingProduct)
    else if IsBlank(reason) then Rejected(MissingReason)
    else if !RegexMatches(email) then Rejected(InvalidEmail)
    else Accepted(Entry(email, name, product, reason))
  }

  /** The validation chain of the submit handler: emptiness tested through
      `Trim`, the format through the closed form of the regular expression.
      It agrees with the reference pass on every input. */
  function Validate(email: string, name: string, product: string, reason: string): (v: Verdict)
    ensures v == Expected(email, name, product, reason)
  {
    if Trim(email) == "" then Rejected(MissingEmail)
    else if Trim(name) == "" then Rejected(MissingName)
    else if product == "" then Rejected(MissingProduct)
    else if Trim(reason) == "" then Rejected(MissingReason)
    else if !EmailRegexTest(email) then Rejected(InvalidEmail)
    else Accepted(Entry(email, name, product, reason))
  }

  /** Each missing-field problem is reported exactly when every earlier
      check passed and its own check fails: emptiness is tested on the
      trimmed text for the email, the name and the reason, and as plain
      emptiness for the product. */
  lemma FirstFailureWins(email: string, name: string, product: string, reason: string)
    ensures Validate(email, name, product, reason) == Rejected(MissingEmail)
            <==> IsBlank(email)
    ensures Validate(email, name, product, reason) == Rejected(MissingName)
            <==> !IsBlank(email) && IsBlank(name)
    ensures Validate(email, name, product, reason) == Rejected(MissingProduct)
            <==> !IsBlank(email) && !IsBlank(name) && product == ""
    ensures Validate(email, name, product, reason) == Rejected(MissingReason)
            <==> !IsBlank(email) && !IsBlank(name) && product != "" && IsBlank(reason)
  {
  }

  /** With every field present, the format decides: a malformed email is
      reported, a well-formed one lets the entry through exactly as typed.
      The submission failure is never a validation verdict. */
  lemma AcceptedExactly(email: string, name: string, product: string, reason: string)
    ensures Validate(email, name, product, reason) == Rejected(InvalidEmail)
            <==> !IsBlank(email) && !IsBlank(name) && product != "" && !IsBlank(reason)
                 && !RegexMatches(email)
    ensures Validate(email, name, product, reason).Accepted?
            <==> !IsBlank(email) && !IsBlank(name) && product != "" && !IsBlank(reason)
                 && RegexMatches(email)
    ensures Validate(email, name, product, reason).Accepted? ==>
              Validate(email, name, product, reason).entry == Entry(email, name, product, reason)
    ensures Validate(email, name, product, reason) != Rejected(SubmitFailed)
  {
  }

  /** Distinct problems show distinct messages, so the message shown
      identifies the failure. */
  lemma MessageInjective(p: Problem, q: Problem)
    requires Message(p) == Message(q)
    ensures p == q
  {
  }

  /** The select offers exactly four distinct, non-empty offerings, so
      picking any of them passes the product check. */
  lemma ProductsWellFormed()
    ensures |Products| == 4
    ensures forall i, j :: 0 <= i < j < |Products| ==> Products[i] != Products[j]
    ensures "" !in Products
  {
  }

  /** A blank email decides the outcome whatever the other fields hold. */
  lemma BlankEmailWins(email: string, name: string, product: string, reason: string)
    requires IsBlank(email)
    ensures Validate(email, name, product, reason) == Rejected(MissingEmail)
  {
  }

  /** The product check is plain emptiness: any non-empty product passes it,
      offered or not, and the empty one fails it exactly when the email and
      name checks passed. */
  lemma ProductCheckIsEmptiness(email: string, name: string, product: string, reason: string)
    ensures product != "" ==> Validate(email, name, product, reason) != Rejected(MissingProduct)
    ensures product == "" ==>
              (Validate(email, name, product, reason) == Rejected(MissingProduct)
               <==> !IsBlank(email) && !IsBlank(name))
  {
  }

  /** The email format is checked only after the reason: a malformed email
      with a blank reason reports the reason. */
  lemma FormatCheckedLast(email: string, name: string, product: string, reason: string)
    requires !IsBlank(email) && !IsBlank(name) && product != ""
    requires !RegexMatches(email)
    ensures IsBlank(reason) ==> Validate(email, name, product, reason) == Rejected(MissingReason)
    ensures !IsBlank(reason) ==> Validate(email, name, product, reason) == Rejected(InvalidEmail)
  {
  }

  /** An accepted email is its own trim; the other fields are kept as typed,
      surrounding whitespace included. */
  lemma AcceptedValuesUntrimmed(email: string, name: string, product: string, reason: string)
    requires Validate(email, name, product, reason).Accepted?
    ensures Trim(email) == email
    ensures Validate(email, name, product, reason).entry.name == name
    ensures Validate(email, name, product, reason).entry.reason == reason
  {
    AcceptedExactly(email, name, product, reason);
    MatchIsNotBlank(email);
  }

  /** An entry that passes every check is accepted as it stands. */
  lemma AllChecksPass(email: string, name: string, product: string, reason: string)
    requires RegexMatches(email) && !IsBlank(name) && product != "" && !IsBlank(reason)
    ensures Validate(email, name, product, reason) == Accepted(Entry(email, name, product, reason))
  {
    MatchIsNotBlank(email);
  }

  /** "not-an-email" has no `@`, so with the other fields valid it is
      reported as malformed; with a blank reason the reason is reported. */
  lemma NotAnEmailExample(p: string)
    requires p in Products
    ensures Validate("not-an-email", "tester", p, "because") == Rejected(InvalidEmail)
    ensures Validate("not-an-email", "tester", p, " \n") == Rejected(MissingReason)
  {
    assert !RegexMatches("not-an-email") by {
      assert '@' !in "not-an-email";
    }
    SampleFieldsNotBlank();
    assert !IsBlank("not-an-email") by { assert !IsWs("not-an-email"[0]); }
    assert IsBlank(" \n");
    ProductsWellFormed();
  }

  /** A well-formed entry is accepted unchanged, for every offering. */
  lemma WellFormedEntryExample(p: string)
    requires p in Products
    ensures Validate("user@example.com", "tester", p, "because")
            == Accepted(Entry("user@example.com", "tester", p, "because"))
  {
    SampleEmailMatches();
    SampleFieldsNotBlank();
    ProductsWellFormed();
    AllChecksPass("user@example.com", "tester", p, "because");
  }

  /** Trimming is a test, not a normalisation: a name with surrounding
      spaces is accepted and kept with them. */
  lemma PaddedNameKept(p: string)
    requires p in Products
    ensures Validate("user@example.com", "  tester  ", p, "because")
            == Accepted(Entry("user@example.com", "  tester  ", p, "because"))
  {
    SampleEmailMatches();
    SampleFieldsNotBlank();
    PaddedNameNotBlank();
    ProductsWellFormed();
    AllChecksPass("user@example.com", "  tester  ", p, "because");
  }

  /** The sample name and reason of the examples are not blank. */
  lemma SampleFieldsNotBlank()
    ensures !IsBlank("tester") && !IsBlank("because")
  {
    assert !IsWs("tester"[0]);
    assert !IsWs("because"[0]);
  }

  /** The padded sample name is not blank: its third character is a letter. */
  lemma PaddedNameNotBlank()
    ensures !IsBlank("  tester  ")
  {
    assert !IsWs("  tester  "[2]);
  }

  /** The sample address matches, split at its `@` and at its last `.`. */
  lemma SampleEmailMatches()
    ensures RegexMatches("user@example.com")
  {
    var s := "user@example.com";
    assert s[..4] == "user";
    assert s[5..12] == "example";
    assert s[13..] == "com";
    assert SplitMatches(s, 4, 12);
  }
}

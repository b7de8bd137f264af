/**
 * The opt-in form that asks for a name and an email before the first
 * generation: the email format check and the submit handler.
 */
module OptIn {
  import opened Wrappers
  import opened Text

  /** A character the class `[^\s@]` admits. */
  predicate PlainChar(c: char) {
    !IsSpace(c) && c != '@'
  }

  predicate AllPlain(s: string) {
    forall k :: 0 <= k < |s| ==> PlainChar(s[k])
  }

  /** The regular expression `^[^\s@]+@[^\s@]+\.[^\s@]+$` read literally: a
      non-empty plain run, `@`, a non-empty plain run, `.`, a non-empty plain run. */
  ghost predicate MatchesEmailPattern(s: string) {
    exists i, j :: PatternAt(s, i, j)
  }

  /** The domain has a `.` that is neither its first nor its last character. */
  predicate InnerDot(domain: string) {
    |domain| >= 3 && '.' in domain[1..|domain| - 1]
  }

  /** `validateEmail(email)`: no white space, exactly one `@` with something
      before it, and a domain with an inner `.`. */
  function ValidateEmail(email: string): bool {
    var at := IndexOf(email, '@');
    NoSpace(email) && 0 < at < |email| && '@' !in email[at + 1..] && InnerDot(email[at + 1..])
  }

  /** `validateEmail` accepts exactly the addresses the regular expression matches. */
  lemma ValidateEmailMatchesPattern(email: string)
    ensures ValidateEmail(email) <==> MatchesEmailPattern(email)
  {
    if ValidateEmail(email) {
      ShapeMatches(email, IndexOf(email, '@'));
    }
    PatternHasShape(email);
  }

  lemma AllPlainSlice(s: string, lo: int, hi: int)
    requires 0 <= lo <= hi <= |s|
    requires forall k :: lo <= k < hi ==> PlainChar(s[k])
    ensures AllPlain(s[lo..hi])
  {
    forall k | 0 <= k < hi - lo
      ensures PlainChar(s[lo..hi][k])
    {
      assert s[lo..hi][k] == s[lo + k];
    }
  }

  lemma PlainOfSlice(s: string, lo: int, hi: int)
    requires 0 <= lo <= hi <= |s|
    requires AllPlain(s[lo..hi])
    ensures forall k :: lo <= k < hi ==> PlainChar(s[k])
  {
    forall k | lo <= k < hi
      ensures PlainChar(s[k])
    {
      assert s[lo..hi][k - lo] == s[k];
    }
  }

  /** With no space and `@` only at `at`, every other character is plain. */
  lemma PlainExceptAt(s: string, at: int)
    requires 0 <= at < |s|
    requires NoSpace(s) && '@' !in s[..at] && '@' !in s[at + 1..]
    ensures forall k :: 0 <= k < |s| && k != at ==> PlainChar(s[k])
  {
    forall k | 0 <= k < |s| && k != at
      ensures PlainChar(s[k])
    {
      if k < at {
        assert s[..at][k] == s[k];
      } else {
        assert s[at + 1..][k - at - 1] == s[k];
      }
    }
  }

  /** The pattern, given where its `@` and its `.` are. */
  predicate PatternAt(s: string, i: int, j: int) {
    0 < i && i + 1 < j && j + 1 < |s| && s[i] == '@' && s[j] == '.' &&
    AllPlain(s[..i]) && AllPlain(s[i + 1..j]) && AllPlain(s[j + 1..])
  }

  lemma PatternAtMatches(s: string, i: int, j: int)
    requires PatternAt(s, i, j)
    ensures MatchesEmailPattern(s)
  {
  }

  /** Where the inner dot of a domain is. */
  lemma InnerDotAt(d: string) returns (p: int)
    requires InnerDot(d)
    ensures 1 <= p < |d| - 1 && d[p] == '.'
  {
    var q :| 0 <= q < |d[1..|d| - 1]| && d[1..|d| - 1][q] == '.';
    p := q + 1;
  }

  /** An `@` and a later `.` with plain runs around them form a match. */
  lemma PlainPartsMatch(s: string, i: int, j: int)
    requires 0 < i && i + 1 < j && j + 1 < |s| && s[i] == '@' && s[j] == '.'
    requires forall k :: 0 <= k < |s| && k != i ==> PlainChar(s[k])
    ensures PatternAt(s, i, j)
  {
    AllPlainSlice(s, 0, i);
    AllPlainSlice(s, i + 1, j);
    AllPlainSlice(s, j + 1, |s|);
    assert s[0..i] == s[..i];
    assert s[j + 1..|s|] == s[j + 1..];
  }

  /** A space-free address whose only `@` is at `at` and whose domain has an
      inner dot matches the pattern. */
  lemma ShapeMatches(s: string, at: int)
    requires 0 < at < |s| && at == IndexOf(s, '@')
    requires NoSpace(s) && '@' !in s[at + 1..] && InnerDot(s[at + 1..])
    ensures MatchesEmailPattern(s)
  {
    var p := InnerDotAt(s[at + 1..]);
    var j := at + 1 + p;
    assert s[j] == s[at + 1..][p];
    PlainExceptAt(s, at);
    PlainPartsMatch(s, at, j);
    PatternAtMatches(s, at, j);
  }

  /** A plain string holds no `@`. */
  lemma PlainHasNoAt(t: string)
    requires AllPlain(t)
    ensures '@' !in t
  {
  }

  /** In a match, every character but the `@` is plain. */
  lemma PlainAround(s: string, i: int, j: int)
    requires PatternAt(s, i, j)
    ensures forall k :: 0 <= k < |s| && k != i ==> PlainChar(s[k])
  {
    assert s[0..i] == s[..i];
    assert s[j + 1..|s|] == s[j + 1..];
    PlainOfSlice(s, 0, i);
    PlainOfSlice(s, i + 1, j);
    PlainOfSlice(s, j + 1, |s|);
  }

  /** In a match, the `@` is the first one. */
  lemma MatchedAtIsFirst(s: string, i: int, j: int)
    requires PatternAt(s, i, j)
    ensures IndexOf(s, '@') == i
  {
    PlainAround(s, i, j);
  }

  /** In a match, nothing after the `@` is an `@`. */
  lemma NoAtAfterMatchedAt(s: string, i: int, j: int)
    requires PatternAt(s, i, j)
    ensures '@' !in s[i + 1..]
  {
    PlainAround(s, i, j);
    AllPlainSlice(s, i + 1, |s|);
    assert s[i + 1..|s|] == s[i + 1..];
    PlainHasNoAt(s[i + 1..]);
  }

  /** An address matching the pattern with its `@` at `i` has the structural shape. */
  lemma PatternAtShape(s: string, i: int, j: int)
    requires PatternAt(s, i, j)
    ensures var at := IndexOf(s, '@');
      NoSpace(s) && 0 < at < |s| && '@' !in s[at + 1..] && InnerDot(s[at + 1..])
  {
    assert NoSpace(s) by {
      PlainAround(s, i, j);
    }
    MatchedAtIsFirst(s, i, j);
    NoAtAfterMatchedAt(s, i, j);
    var d := s[i + 1..];
    assert d[1..|d| - 1][j - i - 2] == '.';
  }

  /** An address matching the pattern has the structural shape. */
  lemma PatternHasShape(s: string)
    ensures MatchesEmailPattern(s) ==>
      var at := IndexOf(s, '@');
      NoSpace(s) && 0 < at < |s| && '@' !in s[at + 1..] && InnerDot(s[at + 1..])
  {
    if MatchesEmailPattern(s) {
      var i, j :| PatternAt(s, i, j);
      PatternAtShape(s, i, j);
    }
  }

  // ---------------------------------------------------------------------------
  // handleSubmit (OptInModal.tsx lines 19-41)

  const NameRequired := "Name is required"
  const EmailRequired := "Email is required"
  const InvalidEmail := "Please enter a valid email address"

  /** The `{ name?, email? }` error record. */
  datatype FormErrors = FormErrors(name: Option<string>, email: Option<string>)

  predicate HasErrors(e: FormErrors) {
    e.name.Some? || e.email.Some?
  }

  /** A call of `onComplete(name, email)`. */
  datatype Submission = Submission(name: string, email: string)

  /** The errors `handleSubmit` collects for the current field values. */
  function ValidationErrors(name: string, email: string): FormErrors {
    var nameError := if Trim(name) == "" then Some(NameRequired) else None;
    var emailError :=
      if Trim(email) == "" then Some(EmailRequired)
      else if !ValidateEmail(email) then Some(InvalidEmail)
      else None;
    FormErrors(nameError, emailError)
  }

  /** A blank name is reported as missing; a blank email as missing; any other
      email that the regular expression does not match as malformed; nothing
      else is reported. */
  lemma ValidationErrorsMeaning(name: string, email: string)
    ensures var e := ValidationErrors(name, email);
      && (e.name.Some? <==> AllSpace(name))
      && (e.name.Some? ==> e.name.value == NameRequired)
      && (AllSpace(email) ==> e.email == Some(EmailRequired))
      && (!AllSpace(email) ==> (e.email.None? <==> MatchesEmailPattern(email)))
      && (!AllSpace(email) && e.email.Some? ==> e.email.value == InvalidEmail)
  {
    ValidateEmailMatchesPattern(email);
  }

  /** An address with white space around it is refused as malformed. */
  lemma SurroundingSpaceRejected(name: string, email: string)
    requires !AllSpace(email) && Trim(email) != email
    ensures ValidationErrors(name, email).email == Some(InvalidEmail)
  {
    if ValidateEmail(email) {
      TrimNoSpace(email);
    }
  }

  /** When nothing is wrong, the name is not blank and trimming leaves the
      email as typed, so `onComplete` receives the original email. */
  lemma AcceptedInputShape(name: string, email: string)
    requires !HasErrors(ValidationErrors(name, email))
    ensures Trim(name) != "" && Trim(email) == email && NoSpace(email)
  {
    TrimNoSpace(email);
  }

  class OptInForm {
    var name: string
    var email: string
    var isSubmitting: bool
    var errors: FormErrors
    /** The calls made to the `onComplete` callback, oldest first. */
    var completed: seq<Submission>

    constructor ()
      ensures name == "" && email == "" && !isSubmitting
      ensures errors == FormErrors(None, None) && completed == []
    {
      name := "";
      email := "";
      isSubmitting := false;
      errors := FormErrors(None, None);
      completed := [];
    }

    /** `handleSubmit`: with errors, show them and stop; otherwise mark the
        form as submitting and hand the trimmed values to `onComplete`. */
    method HandleSubmit()
      modifies this
      ensures name == old(name) && email == old(email)
      ensures var e := ValidationErrors(old(name), old(email));
        if HasErrors(e) then
          errors == e && isSubmitting == old(isSubmitting) && completed == old(completed)
        else
          && errors == old(errors) && isSubmitting
          && completed == old(completed) + [Submission(Trim(old(name)), Trim(old(email)))]
    {
      var nameError: Option<string> := None;
      var emailError: Option<string> := None;
      if Trim(name) == "" {
        nameError := Some(NameRequired);
      }
      if Trim(email) == "" {
        emailError := Some(EmailRequired);
      } else if !ValidateEmail(email) {
        emailError := Some(InvalidEmail);
      }
      var newErrors := FormErrors(nameError, emailError);
      if HasErrors(newErrors) {
        errors := newErrors;
        return;
      }
      isSubmitting := true;
      completed := completed + [Submission(Trim(name), Trim(email))];
    }
  }
}

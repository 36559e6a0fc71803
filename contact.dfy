/**
 * The contact form: four required text fields, the validation rules
 * registered for them, and the submit handler with its in-flight and
 * success flags.
 */
module Contact {
  import opened Maybe
  import Patterns

  datatype Field = Name | Phone | Email | Message

  /** The values of the four inputs. */
  datatype FormInputs = FormInputs(name: string, phone: string, email: string, message: string)
  {
    function Get(f: Field): string
    {
      match f
      case Name => name
      case Phone => phone
      case Email => email
      case Message => message
    }

    /** The inputs after typing `v` into field `f`. */
    function Set(f: Field, v: string): (r: FormInputs)
      ensures r.Get(f) == v
      ensures forall g :: g != f ==> r.Get(g) == Get(g)
    {
      match f
      case Name => this.(name := v)
      case Phone => this.(phone := v)
      case Email => this.(email := v)
      case Message => this.(message := v)
    }
  }

  /** The inputs as the form first shows them and as a reset leaves them. */
  const EmptyInputs: FormInputs := FormInputs("", "", "", "")

  /** The rules a field is registered with, in the order they are tried. */
  datatype Rule = Required | Pattern

  /** The message shown under a field for a failed rule. */
  function ErrorMessage(f: Field, rule: Rule): string
  {
    match rule
    case Required => "שדה זה הוא חובה"
    case Pattern => if f == Phone then "נא להזין מספר טלפון תקין" else "כתובת אימייל לא תקינה"
  }

  // Character classes of the two patterns, with letters of either case.

  predicate IsDigit(c: char) { '0' <= c <= '9' }

  predicate IsLetter(c: char) { 'A' <= c <= 'Z' || 'a' <= c <= 'z' }

  predicate IsLocalChar(c: char)
  {
    IsLetter(c) || IsDigit(c) || c == '.' || c == '_' || c == '%' || c == '+' || c == '-'
  }

  predicate IsDomainChar(c: char)
  {
    IsLetter(c) || IsDigit(c) || c == '.' || c == '-'
  }

  /** Nine or ten digits and nothing else. */
  predicate ValidPhone(s: string)
  {
    (|s| == 9 || |s| == 10) && forall i :: 0 <= i < |s| ==> IsDigit(s[i])
  }

  /** The position of the first `c` in `s`. */
  function IndexOf(s: string, c: char): (r: Option<nat>)
    ensures r.None? ==> c !in s
    ensures r.Some? ==> r.value < |s| && s[r.value] == c && c !in s[..r.value]
  {
    if s == [] then None
    else if s[0] == c then Some(0)
    else match IndexOf(s[1..], c)
      case None => None
      case Some(i) =>
        assert s[..i + 1] == [s[0]] + s[1..][..i];
        Some(i + 1)
  }

  /** The position of the last `c` in `s`. */
  function LastIndexOf(s: string, c: char): (r: Option<nat>)
    ensures r.None? ==> c !in s
    ensures r.Some? ==> r.value < |s| && s[r.value] == c && c !in s[r.value + 1..]
  {
    if s == [] then None
    else if s[|s| - 1] == c then Some(|s| - 1)
    else
      var front := s[..|s| - 1];
      assert s == front + [s[|s| - 1]];
      match LastIndexOf(front, c)
      case None => None
      case Some(i) =>
        assert s[i + 1..] == front[i + 1..] + [s[|s| - 1]];
        Some(i)
  }

  /**
   * The part after the `@`: split at its last dot into a non-empty name of
   * letters, digits, dots and hyphens and a top-level part of at least two
   * letters.
   */
  predicate ValidDomain(d: string)
  {
    match LastIndexOf(d, '.')
    case None => false
    case Some(dot) =>
      && dot >= 1
      && (forall i :: 0 <= i < dot ==> IsDomainChar(d[i]))
      && |d| - (dot + 1) >= 2
      && (forall i :: dot + 1 <= i < |d| ==> IsLetter(d[i]))
  }

  /** A non-empty local part before the first `@`, and a valid domain after it. */
  predicate ValidEmail(s: string)
  {
    match IndexOf(s, '@')
    case None => false
    case Some(at) =>
      && at >= 1
      && (forall i :: 0 <= i < at ==> IsLocalChar(s[i]))
      && ValidDomain(s[at + 1..])
  }

  /** The first rule field `f` fails with value `v`: `required` is tried before `pattern`. */
  function FieldError(f: Field, v: string): (r: Option<Rule>)
    ensures r == Some(Required) <==> v == ""
    ensures r == Some(Pattern) ==> f == Phone || f == Email
    ensures r == None <==> v != "" && (f == Phone ==> ValidPhone(v)) && (f == Email ==> ValidEmail(v))
  {
    if v == "" then Some(Required)
    else match f
      case Phone => if ValidPhone(v) then None else Some(Pattern)
      case Email => if ValidEmail(v) then None else Some(Pattern)
      case _ => None
  }

  /** `rest` with field `f`'s first failing rule added, if it fails one. */
  function Report(f: Field, v: FormInputs, rest: map<Field, Rule>): (r: map<Field, Rule>)
    ensures forall g :: g != f ==> (g in r <==> g in rest) && (g in rest ==> r[g] == rest[g])
    ensures FieldError(f, v.Get(f)) == if f in r then Some(r[f]) else None
  {
    match FieldError(f, v.Get(f))
    case None => rest - {f}
    case Some(rule) => rest[f := rule]
  }

  /** What the form reports: each field that fails a rule, with the first rule it fails. */
  function Validate(v: FormInputs): (errors: map<Field, Rule>)
    ensures forall f :: FieldError(f, v.Get(f)) == if f in errors then Some(errors[f]) else None
  {
    var errors := Report(Name, v, Report(Phone, v, Report(Email, v, Report(Message, v, map[]))));
    errors
  }

  /** The form passes exactly when name and message are filled in and the phone and email rules hold. */
  lemma NoErrorsIff(v: FormInputs)
    ensures Validate(v) == map[] <==>
              v.name != "" && v.message != "" && ValidPhone(v.phone) && ValidEmail(v.email)
  {
    var errors := Validate(v);
    assert FieldError(Name, v.name) == if Name in errors then Some(errors[Name]) else None;
    assert FieldError(Phone, v.phone) == if Phone in errors then Some(errors[Phone]) else None;
    assert FieldError(Email, v.email) == if Email in errors then Some(errors[Email]) else None;
    assert FieldError(Message, v.message) == if Message in errors then Some(errors[Message]) else None;
    if errors != map[] {
      var f :| f in errors;
      assert FieldError(f, v.Get(f)).Some?;
    }
  }

  // The hand-written rules against the registered regular expressions.

  lemma DigitClassIsDigit(c: char)
    ensures Patterns.InClass([Patterns.Range('0', '9')], c, false) <==> IsDigit(c)
  {
    Patterns.InNonLetterRange(Patterns.Range('0', '9'), c, false);
    if IsDigit(c) {
      assert Patterns.Range('0', '9') in [Patterns.Range('0', '9')];
    }
  }

  /** Each range of a class other than `A-Z` is a range without letters. */
  lemma NonLetterRanges(items: seq<Patterns.ClassItem>, c: char)
    requires forall r :: r in items ==> r == Patterns.Range('A', 'Z') || r.hi < 'A' || ('Z' < r.lo && r.hi < 'a')
    ensures forall r :: r in items && r != Patterns.Range('A', 'Z') ==>
              (Patterns.InRange(r, c, true) <==> r.lo <= c <= r.hi)
  {
    forall r | r in items && r != Patterns.Range('A', 'Z')
      ensures Patterns.InRange(r, c, true) <==> r.lo <= c <= r.hi
    {
      Patterns.InNonLetterRange(r, c, true);
    }
  }

  lemma LocalClassIsLocalChar(c: char)
    ensures Patterns.InClass(Patterns.EmailLocalClass, c, true) <==> IsLocalChar(c)
  {
    Patterns.InLetterRange(c);
    NonLetterRanges(Patterns.EmailLocalClass, c);
    if IsLocalChar(c) {
      var r := if IsLetter(c) then Patterns.Range('A', 'Z')
               else if IsDigit(c) then Patterns.Range('0', '9') else Patterns.Range(c, c);
      assert r in Patterns.EmailLocalClass && Patterns.InRange(r, c, true);
    }
  }

  lemma DomainClassIsDomainChar(c: char)
    ensures Patterns.InClass(Patterns.EmailDomainClass, c, true) <==> IsDomainChar(c)
  {
    Patterns.InLetterRange(c);
    NonLetterRanges(Patterns.EmailDomainClass, c);
    if IsDomainChar(c) {
      var r := if IsLetter(c) then Patterns.Range('A', 'Z')
               else if IsDigit(c) then Patterns.Range('0', '9') else Patterns.Range(c, c);
      assert r in Patterns.EmailDomainClass && Patterns.InRange(r, c, true);
    }
  }

  lemma TopLevelClassIsLetter(c: char)
    ensures Patterns.InClass(Patterns.EmailTopLevelClass, c, true) <==> IsLetter(c)
  {
    Patterns.InLetterRange(c);
    if IsLetter(c) {
      assert Patterns.Range('A', 'Z') in Patterns.EmailTopLevelClass;
    }
  }

  /** The phone rule accepts exactly what `/^[0-9]{9,10}$/` accepts. */
  lemma PhoneRuleIsPattern(s: string)
    ensures ValidPhone(s) <==> Patterns.Matches(Patterns.PhonePattern, s)
  {
    Patterns.MatchesLastAtom(Patterns.PhonePattern.atoms, s, false);
    forall i | 0 <= i < |s|
      ensures Patterns.InClass([Patterns.Range('0', '9')], s[i], false) <==> IsDigit(s[i])
    {
      DigitClassIsDigit(s[i]);
    }
  }

  /** `\.[A-Z]{2,}$` under the `i` flag: a dot followed by two or more letters. */
  lemma DotTopLevelIsPattern(t: string)
    ensures Patterns.MatchesAtoms(Patterns.EmailAtoms[3..], t, true) <==>
            |t| >= 3 && t[0] == '.' && forall i :: 1 <= i < |t| ==> IsLetter(t[i])
  {
    var atoms := Patterns.EmailAtoms[3..];
    assert atoms[0] == Patterns.Repeat([Patterns.Range('.', '.')], 1, Some(1));
    assert atoms[1..] == [Patterns.Repeat(Patterns.EmailTopLevelClass, 2, None)];
    Patterns.MatchesOneChar(atoms, '.', t, true);
    if |t| >= 1 {
      var rest := t[1..];
      Patterns.MatchesLastAtom(atoms[1..], rest, true);
      forall i | 0 <= i < |rest|
        ensures Patterns.InClass(Patterns.EmailTopLevelClass, rest[i], true) <==> IsLetter(rest[i])
      {
        TopLevelClassIsLetter(rest[i]);
      }
      assert (forall i :: 0 <= i < |rest| ==> IsLetter(rest[i])) <==>
             (forall i :: 1 <= i < |t| ==> IsLetter(t[i]));
    }
  }

  lemma DomainRuleAcceptsOnlyPattern(d: string)
    requires ValidDomain(d)
    ensures Patterns.MatchesAtoms(Patterns.EmailAtoms[2..], d, true)
  {
    var atoms := Patterns.EmailAtoms[2..];
    assert atoms[0] == Patterns.Repeat(Patterns.EmailDomainClass, 1, None);
    assert atoms[1..] == Patterns.EmailAtoms[3..];
    var dot := LastIndexOf(d, '.').value;
    DotTopLevelIsPattern(d[dot..]);
    forall i | 0 <= i < dot
      ensures Patterns.InClass(Patterns.EmailDomainClass, d[..dot][i], true)
    {
      DomainClassIsDomainChar(d[i]);
    }
    assert Patterns.CountAllowed(atoms[0], dot);
    assert Patterns.MatchesAtoms(atoms[1..], d[dot..], true);
  }

  lemma DomainRuleAcceptsAllOfPattern(d: string)
    requires Patterns.MatchesAtoms(Patterns.EmailAtoms[2..], d, true)
    ensures ValidDomain(d)
  {
    var atoms := Patterns.EmailAtoms[2..];
    assert atoms[1..] == Patterns.EmailAtoms[3..];
    var k :| 0 <= k <= |d| && Patterns.CountAllowed(atoms[0], k)
             && Patterns.AllInClass(atoms[0].items, d[..k], true)
             && Patterns.MatchesAtoms(atoms[1..], d[k..], true);
    assert atoms[0] == Patterns.Repeat(Patterns.EmailDomainClass, 1, None);
    DotTopLevelIsPattern(d[k..]);
    assert d[k] == d[k..][0] == '.';
    assert forall i :: k + 1 <= i < |d| ==> d[i] == d[k..][i - k];
    var j := LastIndexOf(d, '.').value;
    assert j == k;
    forall i | 0 <= i < k
      ensures IsDomainChar(d[i])
    {
      assert d[..k][i] == d[i];
      DomainClassIsDomainChar(d[i]);
    }
  }

  /** The domain part of the email rule against `[A-Z0-9.-]+\.[A-Z]{2,}$` under the `i` flag. */
  lemma DomainRuleIsPattern(d: string)
    ensures ValidDomain(d) <==> Patterns.MatchesAtoms(Patterns.EmailAtoms[2..], d, true)
  {
    if ValidDomain(d) {
      DomainRuleAcceptsOnlyPattern(d);
    }
    if Patterns.MatchesAtoms(Patterns.EmailAtoms[2..], d, true) {
      DomainRuleAcceptsAllOfPattern(d);
    }
  }

  /** `@[A-Z0-9.-]+\.[A-Z]{2,}$` under the `i` flag: an `@` followed by a valid domain. */
  lemma AtDomainIsPattern(t: string)
    ensures Patterns.MatchesAtoms(Patterns.EmailAtoms[1..], t, true) <==>
            |t| >= 1 && t[0] == '@' && ValidDomain(t[1..])
  {
    var atoms := Patterns.EmailAtoms[1..];
    assert atoms[0] == Patterns.Repeat([Patterns.Range('@', '@')], 1, Some(1));
    assert atoms[1..] == Patterns.EmailAtoms[2..];
    Patterns.MatchesOneChar(atoms, '@', t, true);
    if |t| >= 1 {
      DomainRuleIsPattern(t[1..]);
    }
  }

  lemma EmailRuleAcceptsOnlyPattern(s: string)
    requires ValidEmail(s)
    ensures Patterns.Matches(Patterns.EmailPattern, s)
  {
    var atoms := Patterns.EmailAtoms;
    assert atoms[0] == Patterns.Repeat(Patterns.EmailLocalClass, 1, None);
    var at := IndexOf(s, '@').value;
    AtDomainIsPattern(s[at..]);
    assert s[at..][1..] == s[at + 1..];
    forall i | 0 <= i < at
      ensures Patterns.InClass(Patterns.EmailLocalClass, s[..at][i], true)
    {
      LocalClassIsLocalChar(s[i]);
    }
    assert Patterns.CountAllowed(atoms[0], at);
    assert Patterns.MatchesAtoms(atoms[1..], s[at..], true);
  }

  lemma EmailRuleAcceptsAllOfPattern(s: string)
    requires Patterns.Matches(Patterns.EmailPattern, s)
    ensures ValidEmail(s)
  {
    var atoms := Patterns.EmailAtoms;
    var k :| 0 <= k <= |s| && Patterns.CountAllowed(atoms[0], k)
             && Patterns.AllInClass(atoms[0].items, s[..k], true)
             && Patterns.MatchesAtoms(atoms[1..], s[k..], true);
    assert atoms[0] == Patterns.Repeat(Patterns.EmailLocalClass, 1, None);
    AtDomainIsPattern(s[k..]);
    assert s[k..][1..] == s[k + 1..];
    assert s[k] == s[k..][0] == '@';
    forall i | 0 <= i < k
      ensures IsLocalChar(s[i])
    {
      assert s[..k][i] == s[i];
      LocalClassIsLocalChar(s[i]);
    }
    var j := IndexOf(s, '@').value;
    assert j == k;
  }

  /** The email rule accepts exactly what `/^[A-Z0-9._%+-]+@[A-Z0-9.-]+\.[A-Z]{2,}$/i` accepts. */
  lemma EmailRuleIsPattern(s: string)
    ensures ValidEmail(s) <==> Patterns.Matches(Patterns.EmailPattern, s)
  {
    if ValidEmail(s) {
      EmailRuleAcceptsOnlyPattern(s);
    }
    if Patterns.Matches(Patterns.EmailPattern, s) {
      EmailRuleAcceptsAllOfPattern(s);
    }
  }

  /** Letters count in either case: the email rule gives the same answer on the upper-cased address. */
  lemma EmailRuleIgnoresCase(s: string)
    ensures ValidEmail(s) <==> ValidEmail(Patterns.UpperString(s))
  {
    EmailRuleIsPattern(s);
    EmailRuleIsPattern(Patterns.UpperString(s));
    Patterns.MatchesIgnoresCase(Patterns.EmailAtoms, s);
  }

  /** No `@` can pass the domain rule. */
  lemma DomainHasNoAt(d: string)
    requires ValidDomain(d)
    ensures forall k :: 0 <= k < |d| ==> d[k] != '@'
  {
    var dot := LastIndexOf(d, '.').value;
    forall k | 0 <= k < |d|
      ensures d[k] != '@'
    {
      if k < dot {
        assert IsDomainChar(d[k]);
      } else if k > dot {
        assert IsLetter(d[k]);
      }
    }
  }

  /** A valid address holds exactly one `@`, with a non-empty local part before it. */
  lemma EmailHasOneAt(s: string)
    requires ValidEmail(s)
    ensures exists at :: 0 < at < |s| && s[at] == '@'
    ensures forall i, j :: 0 <= i < |s| && 0 <= j < |s| && s[i] == '@' && s[j] == '@' ==> i == j
  {
    var at := IndexOf(s, '@').value;
    var d := s[at + 1..];
    DomainHasNoAt(d);
    forall i | 0 <= i < |s| && i != at
      ensures s[i] != '@'
    {
      if i < at {
        assert s[..at][i] == s[i];
      } else {
        assert d[i - at - 1] == s[i];
      }
    }
  }

  /** Name and message carry only `required`: an empty value is the required error, anything else passes. */
  lemma RequiredOnlyRule(f: Field, v: string)
    requires f == Name || f == Message
    ensures FieldError(f, v) == if v == "" then Some(Required) else None
  {
  }

  /** The phone field: `required` first, then `/^[0-9]{9,10}$/`. */
  lemma PhoneFieldRule(p: string)
    ensures FieldError(Phone, p) ==
              if p == "" then Some(Required)
              else if Patterns.Matches(Patterns.PhonePattern, p) then None
              else Some(Pattern)
    ensures p != "" ==> (FieldError(Phone, p) == None <==>
              (|p| == 9 || |p| == 10) && forall i :: 0 <= i < |p| ==> '0' <= p[i] <= '9')
  {
    PhoneRuleIsPattern(p);
  }

  /** The email field: `required` first, then the email pattern, ignoring case. */
  lemma EmailFieldRule(e: string)
    ensures FieldError(Email, e) ==
              if e == "" then Some(Required)
              else if Patterns.Matches(Patterns.EmailPattern, e) then None
              else Some(Pattern)
    ensures FieldError(Email, e) == FieldError(Email, Patterns.UpperString(e))
  {
    EmailRuleIsPattern(e);
    EmailRuleIgnoresCase(e);
  }

  /** A reset form fails `required` on every field, so it cannot be submitted again as it is. */
  lemma EmptyFormFailsEveryField()
    ensures Validate(EmptyInputs) ==
              map[Name := Required, Phone := Required, Email := Required, Message := Required]
  {
    var errors := Validate(EmptyInputs);
    assert forall f :: f in errors && errors[f] == Required by {
      forall f ensures f in errors && errors[f] == Required {
        assert EmptyInputs.Get(f) == "";
      }
    }
  }

  /** `IndexOf` finds a `c` with no `c` before it. */
  lemma IndexOfFirst(s: string, c: char, i: nat)
    requires i < |s| && s[i] == c && c !in s[..i]
    ensures IndexOf(s, c) == Some(i)
  {
    assert c in s;
    var r := IndexOf(s, c).value;
    assert forall j :: 0 <= j < i ==> s[..i][j] == s[j];
    assert forall j :: 0 <= j < r ==> s[..r][j] == s[j];
  }

  /** `LastIndexOf` finds a `c` with no `c` after it. */
  lemma LastIndexOfLast(s: string, c: char, i: nat)
    requires i < |s| && s[i] == c && c !in s[i + 1..]
    ensures LastIndexOf(s, c) == Some(i)
  {
    assert c in s;
    var r := LastIndexOf(s, c).value;
    assert forall j :: i < j < |s| ==> s[i + 1..][j - i - 1] == s[j];
    assert forall j :: r < j < |s| ==> s[r + 1..][j - r - 1] == s[j];
  }

  /** The sample address `a@b.com` passes the email rule. */
  lemma SampleAddressIsValid(s: string)
    requires s == "a@b.com"
    ensures ValidEmail(s)
  {
    assert s[..1] == "a";
    IndexOfFirst(s, '@', 1);
    var d := s[2..];
    assert d[2..] == "com";
    LastIndexOfLast(d, '.', 1);
  }

  /** The sample phone `0501234567` passes the phone rule. */
  lemma SamplePhoneIsValid(p: string)
    requires p == "0501234567"
    ensures ValidPhone(p)
  {
  }

  /** The report of a form whose only failing field is `f`. */
  lemma SingleFailure(v: FormInputs, f: Field, rule: Rule)
    requires FieldError(f, v.Get(f)) == Some(rule)
    requires forall g :: g != f ==> FieldError(g, v.Get(g)) == None
    ensures Validate(v) == map[f := rule]
  {
    assert Validate(v).Keys == {f};
  }

  /** A form whose only fault is its empty name reports the name's `required` and nothing else. */
  lemma OnlyNameFails(v: FormInputs)
    requires v.name == "" && v.message != "" && ValidPhone(v.phone) && ValidEmail(v.email)
    ensures Validate(v) == map[Name := Required]
  {
    SingleFailure(v, Name, Required);
  }

  /** A form whose only fault is a malformed phone reports the phone's pattern and nothing else. */
  lemma OnlyPhoneFails(v: FormInputs)
    requires v.name != "" && v.message != "" && ValidEmail(v.email)
    requires v.phone != "" && !ValidPhone(v.phone)
    ensures Validate(v) == map[Phone := Pattern]
  {
    SingleFailure(v, Phone, Pattern);
  }

  /** An address without `@` fails the email pattern. */
  lemma EmailWithoutAtFails(e: string)
    requires e != "" && '@' !in e
    ensures FieldError(Email, e) == Some(Pattern)
  {
  }

  /** A phone shorter than nine characters fails the phone pattern. */
  lemma ShortPhoneFails(p: string)
    requires 0 < |p| < 9
    ensures FieldError(Phone, p) == Some(Pattern)
  {
  }

  /** A form whose only fault is its email reports the email's pattern and nothing else. */
  lemma OnlyEmailFails(v: FormInputs)
    requires v.name != "" && v.message != "" && ValidPhone(v.phone)
    requires v.email != "" && !ValidEmail(v.email)
    ensures Validate(v) == map[Email := Pattern]
  {
    SingleFailure(v, Email, Pattern);
  }

  /** The sample address `not-an-email` fails the email's pattern. */
  lemma MalformedEmailSample()
    ensures FieldError(Email, "not-an-email") == Some(Pattern)
  {
    var s := "not-an-email";
    assert forall i :: 0 <= i < |s| ==> s[i] != '@';
    EmailWithoutAtFails(s);
  }

  /** A complete sample submission passes every rule. */
  lemma ValidSample(v: FormInputs)
    requires v == FormInputs("Dana", "0501234567", "a@b.com", "hi")
    ensures Validate(v) == map[]
  {
    SampleAddressIsValid(v.email);
    SamplePhoneIsValid(v.phone);
    NoErrorsIff(v);
  }

  /**
   * The form component's own state. `values` are the inputs' current
   * values; `successTimers` counts the 5-second timers started by successful
   * submissions that have not fired yet (the component never cancels them).
   */
  class ContactForm {
    var values: FormInputs
    var isSubmitting: bool
    var submitSuccess: bool
    var successTimers: nat

    /** The success message is only ever shown with a timer pending to hide it. */
    ghost predicate Valid()
      reads this
    {
      submitSuccess ==> successTimers > 0
    }

    constructor ()
      ensures Valid()
      ensures values == EmptyInputs && !isSubmitting && !submitSuccess && successTimers == 0
    {
      values := EmptyInputs;
      isSubmitting := false;
      submitSuccess := false;
      successTimers := 0;
    }

    /** The submit button's `disabled` attribute. */
    predicate SubmitDisabled()
      reads this
    {
      isSubmitting
    }

    /** The user types `v` into field `f`; nothing else changes. */
    method Input(f: Field, v: string)
      requires Valid()
      modifies this`values
      ensures Valid()
      ensures values == old(values).Set(f, v)
    {
      values := values.Set(f, v);
    }

    /** The submit handler starts: the in-flight flag is raised. */
    method BeginSubmit()
      requires Valid() && !SubmitDisabled() && Validate(values) == map[]
      modifies this`isSubmitting
      ensures Valid()
      ensures isSubmitting
    {
      isSubmitting := true;
    }

    /**
     * A click on the submit button. `browserAcceptsEmail` is the verdict of
     * the browser's own constraint validation of the `type="email"` input,
     * which runs before any `submit` event; it never rejects an empty value.
     * A disabled button, or an address the browser rejects, fires no `submit`
     * event: nothing is validated (`errors == None`) and nothing starts.
     * Otherwise the form is validated and the handler starts only if no
     * field fails.
     */
    method PressSubmit(browserAcceptsEmail: bool) returns (dispatched: bool, errors: Option<map<Field, Rule>>)
      requires Valid()
      requires values.email == "" ==> browserAcceptsEmail
      modifies this`isSubmitting
      ensures Valid()
      ensures errors.None? <==> old(isSubmitting) || !browserAcceptsEmail
      ensures errors.Some? ==> errors.value == Validate(values)
      ensures dispatched <==> errors == Some(map[])
      ensures isSubmitting == (old(isSubmitting) || dispatched)
    {
      if SubmitDisabled() || !browserAcceptsEmail {
        return false, None;
      }
      var report := Validate(values);
      errors := Some(report);
      dispatched := report == map[];
      if dispatched {
        BeginSubmit();
      }
    }

    /**
     * The submission settles successfully: the form is reset, the success
     * message is shown with a timer to hide it, and the in-flight flag drops.
     */
    method CompleteOk()
      requires Valid() && isSubmitting
      modifies this
      ensures Valid()
      ensures values == EmptyInputs && submitSuccess && !isSubmitting
      ensures successTimers == old(successTimers) + 1
    {
      values := EmptyInputs;
      submitSuccess := true;
      successTimers := successTimers + 1;
      isSubmitting := false;
    }

    /**
     * The submission fails: only the in-flight flag drops, so the user can
     * retry. The simulated call always resolves, so the current code never
     * reaches its `catch`; this event stands for a real endpoint rejecting
     * the call.
     */
    method CompleteErr()
      requires Valid() && isSubmitting
      modifies this`isSubmitting
      ensures Valid() && !isSubmitting
    {
      isSubmitting := false;
    }

    /** A 5-second timer fires and hides the success message. */
    method SuccessTimerFires()
      requires Valid() && successTimers > 0
      modifies this`submitSuccess, this`successTimers
      ensures Valid() && !submitSuccess
      ensures successTimers == old(successTimers) - 1
    {
      submitSuccess := false;
      successTimers := successTimers - 1;
    }
  }
}

/** The new-event page: the checks of its form schema, the per-field error
    map that the submit handler builds from the schema's issues, and the
    handler's changes to the page state. */
module EventForm {
  import opened Basics
  import opened Text

  // ---------------------------------------------------------------------
  // The time-of-day pattern `^([0-1]?[0-9]|2[0-3]):[0-5][0-9]$`

  /** `[0-5]`: the tens digit of the minutes. */
  predicate IsMinuteTens(c: char) {
    '0' <= c <= '5'
  }

  /** The two-character hours of `([0-1]?[0-9]|2[0-3])`: `[0-1][0-9]` or `2[0-3]`. */
  predicate IsTwoDigitHour(a: char, b: char) {
    ('0' <= a <= '1' && IsDigit(b)) || (a == '2' && '0' <= b <= '3')
  }

  /** The pattern tested against the whole string, character by character.
      Without the optional leading `[0-1]` the hour is one digit `[0-9]` and
      the string has four characters; with it, or with `2[0-3]`, five. */
  predicate MatchesTime(s: string) {
    if |s| == 4 then
      IsDigit(s[0]) && s[1] == ':' && IsMinuteTens(s[2]) && IsDigit(s[3])
    else if |s| == 5 then
      IsTwoDigitHour(s[0], s[1]) && s[2] == ':' && IsMinuteTens(s[3]) && IsDigit(s[4])
    else
      false
  }

  function DigitValue(c: char): int {
    c as int - '0' as int
  }

  /** The decimal digit of `n`. */
  function Digit(n: int): (c: char)
    requires 0 <= n < 10
    ensures IsDigit(c) && DigitValue(c) == n
  {
    ('0' as int + n) as char
  }

  /** The hour a matching string denotes. */
  function HourOf(s: string): int
    requires MatchesTime(s)
  {
    if |s| == 4 then DigitValue(s[0]) else DigitValue(s[0]) * 10 + DigitValue(s[1])
  }

  /** The minutes a matching string denotes. */
  function MinuteOf(s: string): int
    requires MatchesTime(s)
  {
    DigitValue(s[|s| - 2]) * 10 + DigitValue(s[|s| - 1])
  }

  /** The time `h:mm` written with a one-digit hour, or `hh:mm` with the hour
      padded to two digits when `wide`. */
  function TimeText(h: int, m: int, wide: bool): (s: string)
    requires 0 <= h < 100 && 0 <= m < 100
    requires !wide ==> h < 10
    ensures |s| == (if wide then 5 else 4)
  {
    var minutes := [Digit(m / 10), Digit(m % 10)];
    if wide then [Digit(h / 10), Digit(h % 10), ':'] + minutes else [Digit(h), ':'] + minutes
  }

  /** Every time of day from 0:00 to 23:59 passes, with a one-digit hour
      (hours 0 to 9) or a two-digit one. */
  lemma TimeTextMatches(h: int, m: int, wide: bool)
    requires 0 <= h < 24 && 0 <= m < 60
    requires !wide ==> h < 10
    ensures MatchesTime(TimeText(h, m, wide))
    ensures HourOf(TimeText(h, m, wide)) == h && MinuteOf(TimeText(h, m, wide)) == m
  {
    var s := TimeText(h, m, wide);
    assert DigitValue(s[|s| - 2]) == m / 10 && DigitValue(s[|s| - 1]) == m % 10;
    if wide {
      assert DigitValue(s[0]) == h / 10 && DigitValue(s[1]) == h % 10;
    }
  }

  /** A matching string denotes an hour below 24, one-digit in the short form, and minutes below 60. */
  lemma MatchedRanges(s: string)
    requires MatchesTime(s)
    ensures 0 <= HourOf(s) < 24 && 0 <= MinuteOf(s) < 60
    ensures |s| == 4 ==> HourOf(s) < 10
  {
  }

  /** Only such times pass: a matching string is one of them, with an hour
      below 24 and minutes below 60. */
  lemma MatchedIsTimeText(s: string)
    requires MatchesTime(s)
    ensures 0 <= HourOf(s) < 24 && 0 <= MinuteOf(s) < 60
    ensures |s| == 4 ==> HourOf(s) < 10
    ensures s == TimeText(HourOf(s), MinuteOf(s), |s| == 5)
  {
    MatchedRanges(s);
    var t := TimeText(HourOf(s), MinuteOf(s), |s| == 5);
    assert forall k :: 0 <= k < |s| ==> s[k] == t[k];
  }

  /** The pattern's edge cases: hour 24, a one-digit minute and the empty string fail. */
  lemma RejectedTimes()
    ensures !MatchesTime("24:00")
    ensures !MatchesTime("7:5")
    ensures !MatchesTime("")
    ensures MatchesTime("7:05") && MatchesTime("07:05") && MatchesTime("23:59")
  {
  }

  // ---------------------------------------------------------------------
  // The form schema

  /** The keys of the form values, in the schema's order. */
  datatype Field = Title | Description | Location | Date | Time | MaxParticipants | Photo | ExternalLink

  const Schema: seq<Field> := [Title, Description, Location, Date, Time, MaxParticipants, Photo, ExternalLink]

  /** Where a field stands in the schema. */
  function Position(f: Field): (k: int)
    ensures 0 <= k < |Schema| && Schema[k] == f
  {
    match f
    case Title => 0
    case Description => 1
    case Location => 2
    case Date => 3
    case Time => 4
    case MaxParticipants => 5
    case Photo => 6
    case ExternalLink => 7
  }

  /** The form state. `date` is the picked day as a millisecond timestamp. */
  datatype FormValues = FormValues(
    title: string,
    description: string,
    location: string,
    date: int,
    time: string,
    maxParticipants: int,
    photo: string,
    externalLink: string)

  /** The rule of each field. Whether the link is a URL is the outcome of the
      schema library's URL check, given as `linkIsUrl`; the date comes from a
      calendar and is always a valid date. */
  predicate Passes(v: FormValues, f: Field, linkIsUrl: bool) {
    match f
    case Title => |v.title| >= 2
    case Description => |v.description| >= 10
    case Location => |v.location| >= 2
    case Date => true
    case Time => MatchesTime(v.time)
    case MaxParticipants => v.maxParticipants >= 1
    case Photo => |v.photo| >= 1
    case ExternalLink => linkIsUrl
  }

  /** The message the schema attaches to each rule. */
  function Message(f: Field): string {
    match f
    case Title => "Title must be at least 2 characters"
    case Description => "Description must be at least 10 characters"
    case Location => "Location must be at least 2 characters"
    case Date => "Invalid date"
    case Time => "Invalid time format"
    case MaxParticipants => "Must have at least 1 participant"
    case Photo => "Please upload a photo"
    case ExternalLink => "Please enter a valid URL"
  }

  /** One entry of a validation error: the path to the offending value (for
      this flat schema, the key of the field) and the message. */
  datatype Issue = Issue(path: seq<Field>, message: string)

  /** The issue a failing field raises: its key as the path, and its rule's message. */
  function IssueFor(f: Field): Issue {
    Issue([f], Message(f))
  }

  /** The issues of the failing fields `fs`, in order. */
  function Reports(fs: seq<Field>): (issues: seq<Issue>)
    ensures |issues| == |fs|
    ensures forall k :: 0 <= k < |fs| ==> issues[k] == IssueFor(fs[k])
  {
    if fs == [] then [] else [IssueFor(fs[0])] + Reports(fs[1..])
  }

  /** The fields whose rule fails, in the schema's order. */
  function Failing(v: FormValues, linkIsUrl: bool): seq<Field> {
    Filter(Schema, f => !Passes(v, f, linkIsUrl))
  }

  /** Every field is in the schema. */
  lemma InSchema(f: Field)
    ensures f in Schema
  {
    assert Schema[Position(f)] == f;
  }

  /** No field fails exactly when every rule holds. */
  lemma FailingEmpty(v: FormValues, linkIsUrl: bool)
    ensures Failing(v, linkIsUrl) == [] <==> forall f :: Passes(v, f, linkIsUrl)
  {
    var p := f => !Passes(v, f, linkIsUrl);
    FilterEmpty(Schema, p);
    if forall f :: f in Schema ==> !p(f) {
      forall f ensures Passes(v, f, linkIsUrl) {
        InSchema(f);
        assert !p(f);
      }
    }
  }

  /** Every rule holds exactly when each field meets its bound. */
  lemma AllPass(v: FormValues, linkIsUrl: bool)
    ensures (forall f :: Passes(v, f, linkIsUrl)) <==>
              && |v.title| >= 2
              && |v.description| >= 10
              && |v.location| >= 2
              && MatchesTime(v.time)
              && v.maxParticipants >= 1
              && |v.photo| >= 1
              && linkIsUrl
  {
    assert (Passes(v, Title, linkIsUrl) && Passes(v, Description, linkIsUrl) && Passes(v, Location, linkIsUrl)
            && Passes(v, Time, linkIsUrl) && Passes(v, MaxParticipants, linkIsUrl) && Passes(v, Photo, linkIsUrl)
            && Passes(v, ExternalLink, linkIsUrl))
       <==> (|v.title| >= 2 && |v.description| >= 10 && |v.location| >= 2 && MatchesTime(v.time)
            && v.maxParticipants >= 1 && |v.photo| >= 1 && linkIsUrl);
  }

  /** `formSchema.parse(formData)`: the issues of the failing fields in the
      schema's order, none when the values are valid. */
  function Issues(v: FormValues, linkIsUrl: bool): (issues: seq<Issue>)
    ensures issues == [] <==>
              && |v.title| >= 2
              && |v.description| >= 10
              && |v.location| >= 2
              && MatchesTime(v.time)
              && v.maxParticipants >= 1
              && |v.photo| >= 1
              && linkIsUrl
  {
    FailingEmpty(v, linkIsUrl);
    AllPass(v, linkIsUrl);
    Reports(Failing(v, linkIsUrl))
  }

  /** The issues raised by the form are those of its failing fields, one each. */
  lemma IssuesOfFailing(v: FormValues, linkIsUrl: bool)
    ensures forall issue :: issue in Issues(v, linkIsUrl) ==> exists f :: !Passes(v, f, linkIsUrl) && issue == IssueFor(f)
    ensures forall f :: !Passes(v, f, linkIsUrl) ==> IssueFor(f) in Issues(v, linkIsUrl)
  {
    var failing := Failing(v, linkIsUrl);
    var issues := Reports(failing);
    forall issue | issue in issues ensures exists f :: !Passes(v, f, linkIsUrl) && issue == IssueFor(f) {
      var k :| 0 <= k < |issues| && issues[k] == issue;
      assert failing[k] in failing;
    }
    forall f | !Passes(v, f, linkIsUrl) ensures IssueFor(f) in issues {
      assert Schema[Position(f)] == f;
      assert f in failing;
      var k :| 0 <= k < |failing| && failing[k] == f;
      assert issues[k] == IssueFor(f);
    }
  }

  // ---------------------------------------------------------------------
  // The error map

  /** `if (err.path[0])`: the issue names a key. Every key of the form is a
      non-empty name, so this holds exactly when the path is not empty. */
  predicate HasKey(issue: Issue) {
    |issue.path| > 0
  }

  /** The map the `forEach` leaves: each keyed issue, in order, overwrites its key. */
  function LastMessages(issues: seq<Issue>): map<Field, string> {
    if issues == [] then map[]
    else
      var m := LastMessages(issues[..|issues| - 1]);
      var last := issues[|issues| - 1];
      if HasKey(last) then m[last.path[0] := last.message] else m
  }

  /** The keys of the map are exactly the first path elements of the keyed
      issues, and each key holds the message of one of its issues. */
  lemma {:induction false} LastMessagesKeys(issues: seq<Issue>, key: Field)
    ensures key in LastMessages(issues) <==>
              exists i :: 0 <= i < |issues| && HasKey(issues[i]) && issues[i].path[0] == key
    ensures key in LastMessages(issues) ==>
              exists i :: 0 <= i < |issues| && HasKey(issues[i]) && issues[i].path[0] == key
                          && issues[i].message == LastMessages(issues)[key]
  {
    if issues != [] {
      var init := issues[..|issues| - 1];
      LastMessagesKeys(init, key);
      assert forall i :: 0 <= i < |init| ==> init[i] == issues[i];
    }
  }

  /** For a key named by several issues, the last one's message wins. */
  lemma {:induction false} LastMessagesValue(issues: seq<Issue>, i: int)
    requires 0 <= i < |issues| && HasKey(issues[i])
    requires forall j :: i < j < |issues| && HasKey(issues[j]) ==> issues[j].path[0] != issues[i].path[0]
    ensures issues[i].path[0] in LastMessages(issues)
    ensures LastMessages(issues)[issues[i].path[0]] == issues[i].message
  {
    var init := issues[..|issues| - 1];
    if i < |issues| - 1 {
      assert forall j :: i < j < |init| ==> init[j] == issues[j];
      LastMessagesValue(init, i);
    }
  }

  /** The `forEach` over the issues of a validation error that fills `newErrors`. */
  method ErrorMap(issues: seq<Issue>) returns (errors: map<Field, string>)
    ensures errors == LastMessages(issues)
  {
    errors := map[];
    for i := 0 to |issues|
      invariant errors == LastMessages(issues[..i])
    {
      var issue := issues[i];
      assert issues[..i + 1][..i] == issues[..i];
      if HasKey(issue) {
        errors := errors[issue.path[0] := issue.message];
      }
    }
    assert issues[..|issues|] == issues;
  }

  /** After a failed submit the error map holds only fields whose rule
      fails, each with that rule's message. */
  lemma FormErrorKeys(v: FormValues, linkIsUrl: bool, f: Field)
    requires f in LastMessages(Issues(v, linkIsUrl))
    ensures !Passes(v, f, linkIsUrl)
    ensures LastMessages(Issues(v, linkIsUrl))[f] == Message(f)
  {
    var issues := Issues(v, linkIsUrl);
    LastMessagesKeys(issues, f);
    IssuesOfFailing(v, linkIsUrl);
    var i :| 0 <= i < |issues| && HasKey(issues[i]) && issues[i].path[0] == f
             && issues[i].message == LastMessages(issues)[f];
    assert issues[i] in issues;
  }

  /** A field whose rule fails shows that rule's message. */
  lemma FormErrorShown(v: FormValues, linkIsUrl: bool, f: Field)
    requires !Passes(v, f, linkIsUrl)
    ensures f in LastMessages(Issues(v, linkIsUrl))
    ensures LastMessages(Issues(v, linkIsUrl))[f] == Message(f)
  {
    var i := FailingIssue(v, linkIsUrl, f);
    KeyedInMap(Issues(v, linkIsUrl), i);
    FormErrorKeys(v, linkIsUrl, f);
  }

  /** Where the issue of a failing field sits among the issues. */
  lemma FailingIssue(v: FormValues, linkIsUrl: bool, f: Field) returns (i: int)
    requires !Passes(v, f, linkIsUrl)
    ensures 0 <= i < |Issues(v, linkIsUrl)| && Issues(v, linkIsUrl)[i] == IssueFor(f)
  {
    IssuesOfFailing(v, linkIsUrl);
    var issues := Issues(v, linkIsUrl);
    i :| 0 <= i < |issues| && issues[i] == IssueFor(f);
  }

  /** The key of a keyed issue is in the map. */
  lemma KeyedInMap(issues: seq<Issue>, i: int)
    requires 0 <= i < |issues| && HasKey(issues[i])
    ensures issues[i].path[0] in LastMessages(issues)
  {
    LastMessagesKeys(issues, issues[i].path[0]);
  }

  // ---------------------------------------------------------------------
  // The page state

  /** The body of the request sent to create the event, with the address of the creator. */
  datatype Request = Request(email: string, body: FormValues)

  /** The state of the new-event page. */
  class NewEventForm {
    var formData: FormValues
    var errors: map<Field, string>
    var isSubmitting: bool

    /** The initial state; `today` stands for `new Date()`. */
    constructor (today: int)
      ensures formData == FormValues("", "", "", today, "", 1, "", "")
      ensures errors == map[]
      ensures !isSubmitting
    {
      formData := FormValues("", "", "", today, "", 1, "", "");
      errors := map[];
      isSubmitting := false;
    }

    /** `handleSubmit`. Without a signed-in address nothing happens. Otherwise
        valid values clear the errors and are sent (the request is returned),
        invalid ones set the error map from the issues; either way the page
        ends not submitting. The outcome of the request is not modelled. */
    method HandleSubmit(email: Option<string>, linkIsUrl: bool) returns (sent: Option<Request>)
      modifies this
      ensures formData == old(formData)
      ensures (email == None || email == Some("")) ==>
                sent == None && errors == old(errors) && isSubmitting == old(isSubmitting)
      ensures email.Some? && email.value != "" ==>
                && !isSubmitting
                && (Issues(formData, linkIsUrl) == [] ==>
                      errors == map[] && sent == Some(Request(email.value, formData)))
                && (Issues(formData, linkIsUrl) != [] ==>
                      errors == LastMessages(Issues(formData, linkIsUrl)) && sent == None)
    {
      if email == None || email == Some("") {
        return None;
      }
      var issues := Issues(formData, linkIsUrl);
      if issues == [] {
        errors := map[];
        isSubmitting := true;
        sent := Some(Request(email.value, formData));
      } else {
        errors := ErrorMap(issues);
        sent := None;
      }
      isSubmitting := false;
    }
  }
}

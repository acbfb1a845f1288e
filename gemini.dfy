/** The reminder generator of `generateReminderEmail`: the text-generation
    call itself is external, so its outcome and the JSON decoding of its text
    are parameters; what is modelled is the choice between the decoded reply,
    the default reply and the local fallback template. */
module Gemini {
  import opened Types

  /** The outcome of the text-generation call: it threw, or it returned a
      response whose `text` may be missing. */
  datatype ServiceResponse = ServiceError | Responded(text: Option<string>)

  /** The reply obtained from the JSON literal used when the response text is missing or empty. */
  const DefaultReply: Reply := Reply("Reminder", "Just a friendly reminder to complete your task.")

  /** `addr.split('@')[0]`: the text before the first '@', or all of it. */
  function LocalPart(addr: string): (r: string)
    ensures r <= addr
    ensures '@' !in r
    ensures '@' in addr ==> |r| < |addr| && addr[|r|] == '@'
    ensures '@' !in addr ==> r == addr
  {
    if addr == [] || addr[0] == '@' then []
    else [addr[0]] + LocalPart(addr[1..])
  }

  function DigitChar(d: nat): char
    requires d < 10
  {
    "0123456789"[d]
  }

  /** The decimal text a template literal gives a non-negative integer:
      digits only, with no leading zero. */
  function NatToString(n: nat): (s: string)
    ensures |s| > 0
    ensures forall i :: 0 <= i < |s| ==> '0' <= s[i] <= '9'
    ensures n > 0 ==> s[0] != '0'
  {
    if n < 10 then [DigitChar(n)]
    else NatToString(n / 10) + [DigitChar(n % 10)]
  }

  /** Reads a string of decimal digits back as a number. */
  function DigitsValue(s: string): int {
    if s == [] then 0
    else DigitsValue(s[..|s| - 1]) * 10 + (s[|s| - 1] as int - '0' as int)
  }

  lemma {:induction false} NatToStringRoundTrip(n: nat)
    ensures DigitsValue(NatToString(n)) == n
  {
    var s := NatToString(n);
    if n >= 10 {
      NatToStringRoundTrip(n / 10);
      assert s[..|s| - 1] == NatToString(n / 10);
    }
  }

  const SubjectPrefix: string := "Urgent Reminder from "
  const ReportPrefix: string := "You have received "
  const ReportSuffix: string := " previous notifications."
  const Closing: string := "Please reply 'finished' once the task is done."

  function FallbackSubject(companyText: string, taskTitle: string): string {
    SubjectPrefix + companyText + ": " + taskTitle
  }

  function Greeting(assigneeEmail: string): string {
    "Hello " + LocalPart(assigneeEmail) + ",\n\n"
  }

  /** The fallback content up to the reminder count. */
  function ContentLead(assigneeEmail: string, companyText: string, taskTitle: string): string {
    Greeting(assigneeEmail)
      + ("This is a persistent reminder from " + companyText + " to complete your task: " + taskTitle + ". "
         + ReportPrefix)
  }

  /** The fallback content after the reminder count. */
  const ContentTail: string := ReportSuffix + " " + Closing

  function FallbackContent(assigneeEmail: string, companyText: string, taskTitle: string, countText: string): string {
    ContentLead(assigneeEmail, companyText, taskTitle) + countText + ContentTail
  }

  /** The reply of the catch branch. The two interpolated values are given as
      the text the template renders for them. */
  function FallbackReply(taskTitle: string, assigneeEmail: string, companyText: string, countText: string): Reply {
    Reply(FallbackSubject(companyText, taskTitle), FallbackContent(assigneeEmail, companyText, taskTitle, countText))
  }

  /** The body of `generateReminderEmail` with its interpolated values given as
      text: a thrown call or text that does not decode gives the fallback; a
      missing or empty text gives the default reply. The description goes only
      into the prompt, which is not part of this model. */
  function Generate(taskTitle: string, taskDescription: string, assigneeEmail: string,
                    companyText: string, countText: string,
                    response: ServiceResponse, parse: string -> Option<Reply>): Reply
  {
    var fallback := FallbackReply(taskTitle, assigneeEmail, companyText, countText);
    match response
    case ServiceError => fallback
    case Responded(text) =>
      var body := if text == None || text.value == "" then None else Some(text.value);
      if body == None then DefaultReply
      else match parse(body.value)
        case Some(reply) => reply
        case None => fallback
  }

  /** `generateReminderEmail` as declared, with five parameters. */
  function GenerateReminderEmail(taskTitle: string, taskDescription: string, assigneeEmail: string,
                                 companyName: string, reminderCount: nat,
                                 response: ServiceResponse, parse: string -> Option<Reply>): (r: Reply)
    ensures response == ServiceError ==>
      r == FallbackReply(taskTitle, assigneeEmail, companyName, NatToString(reminderCount))
    ensures response.Responded? && (response.text == None || response.text == Some("")) ==>
      r == DefaultReply
    ensures response.Responded? && response.text.Some? && response.text.value != "" ==>
      r == (match parse(response.text.value)
            case Some(decoded) => decoded
            case None => FallbackReply(taskTitle, assigneeEmail, companyName, NatToString(reminderCount)))
  {
    Generate(taskTitle, taskDescription, assigneeEmail, companyName, NatToString(reminderCount), response, parse)
  }

  /** The fallback subject is the prefix, the company, ": " and the task title,
      each recoverable from its slice. */
  lemma FallbackSubjectParts(companyText: string, taskTitle: string)
    ensures var s := FallbackSubject(companyText, taskTitle);
      |s| == |SubjectPrefix| + |companyText| + 2 + |taskTitle| &&
      s[..|SubjectPrefix|] == SubjectPrefix &&
      s[|SubjectPrefix|..|SubjectPrefix| + |companyText|] == companyText &&
      s[|SubjectPrefix| + |companyText|..|SubjectPrefix| + |companyText| + 2] == ": " &&
      s[|SubjectPrefix| + |companyText| + 2..] == taskTitle
  {
  }

  /** The three slices of a three-part concatenation. */
  lemma Pieces(x: string, y: string, z: string)
    ensures (x + y + z)[..|x|] == x
    ensures (x + y + z)[|x|..|x| + |y|] == y
    ensures (x + y + z)[|x| + |y|..] == z
  {
  }

  /** The fallback content greets the assignee by the local part of the
      address, holds the count text right after "You have received ", and ends
      with " previous notifications." and the reply instruction. */
  lemma FallbackContentShape(assigneeEmail: string, companyText: string, taskTitle: string, countText: string)
    ensures var c := FallbackContent(assigneeEmail, companyText, taskTitle, countText);
      var k := |ContentLead(assigneeEmail, companyText, taskTitle)|;
      var g := Greeting(assigneeEmail);
      |g| + |ReportPrefix| <= k <= k + |countText| <= |c| &&
      c[..|g|] == g &&
      c[k - |ReportPrefix|..k] == ReportPrefix &&
      c[k..k + |countText|] == countText &&
      c[k + |countText|..] == ReportSuffix + " " + Closing
  {
    var g := Greeting(assigneeEmail);
    var rest := "This is a persistent reminder from " + companyText + " to complete your task: " + taskTitle + ". ";
    var lead := ContentLead(assigneeEmail, companyText, taskTitle);
    var c := FallbackContent(assigneeEmail, companyText, taskTitle, countText);
    Pieces(lead, countText, ContentTail);
    Pieces(g, rest, ReportPrefix);
    assert lead == g + rest + ReportPrefix;
    assert c[..|lead|] == lead;
    assert c[..|g|] == lead[..|g|];
    assert c[|lead| - |ReportPrefix|..|lead|] == lead[|lead| - |ReportPrefix|..];
  }

  /** The count a fallback reports reads back as the number passed in. */
  lemma FallbackContentCount(assigneeEmail: string, companyText: string, taskTitle: string, count: nat)
    ensures var c := FallbackContent(assigneeEmail, companyText, taskTitle, NatToString(count));
      var k := |ContentLead(assigneeEmail, companyText, taskTitle)|;
      k + |NatToString(count)| <= |c| &&
      DigitsValue(c[k..k + |NatToString(count)|]) == count
  {
    FallbackContentShape(assigneeEmail, companyText, taskTitle, NatToString(count));
    NatToStringRoundTrip(count);
  }

  /** The generator as App.tsx calls it: four arguments for five parameters, so
      the count fills the company slot and the count parameter is `undefined`. */
  function ReminderAsCalled(t: Task, response: ServiceResponse, parse: string -> Option<Reply>): Reply {
    Generate(t.title, t.description, t.assigneeEmail, NatToString(t.reminderCount), "undefined", response, parse)
  }

  /** The evidently intended call: the task's company name and reminder count in their own slots. */
  function ReminderFor(t: Task, response: ServiceResponse, parse: string -> Option<Reply>): (r: Reply)
    ensures response == ServiceError ==>
      r == FallbackReply(t.title, t.assigneeEmail, t.companyName, NatToString(t.reminderCount))
    ensures (response.Responded? && response.text.Some? && response.text.value != "" &&
             parse(response.text.value) == None) ==>
      r == FallbackReply(t.title, t.assigneeEmail, t.companyName, NatToString(t.reminderCount))
  {
    GenerateReminderEmail(t.title, t.description, t.assigneeEmail, t.companyName, t.reminderCount, response, parse)
  }

  /** With the call as written, a failed generation names the reminder count
      where the company belongs and puts "undefined" in the count slot; for any
      company name other than the count's digits (company "Acme", reminded
      twice) the subject differs from the intended one. */
  lemma AsCalledFallbackMislabels(t: Task, parse: string -> Option<Reply>)
    requires t.companyName != NatToString(t.reminderCount)
    ensures var r := ReminderAsCalled(t, ServiceError, parse);
      var k := |ContentLead(t.assigneeEmail, NatToString(t.reminderCount), t.title)|;
      r.subject == FallbackSubject(NatToString(t.reminderCount), t.title) &&
      r.subject != ReminderFor(t, ServiceError, parse).subject &&
      k + 9 <= |r.content| && r.content[k..k + 9] == "undefined"
  {
    var d := NatToString(t.reminderCount);
    FallbackSubjectParts(d, t.title);
    FallbackSubjectParts(t.companyName, t.title);
    FallbackContentShape(t.assigneeEmail, d, t.title, "undefined");
    var asCalled, intended := FallbackSubject(d, t.title), FallbackSubject(t.companyName, t.title);
    assert ReminderAsCalled(t, ServiceError, parse).subject == asCalled;
    assert ReminderFor(t, ServiceError, parse).subject == intended;
    if |d| == |t.companyName| {
      assert asCalled[|SubjectPrefix|..|SubjectPrefix| + |d|] != intended[|SubjectPrefix|..|SubjectPrefix| + |d|];
    } else {
      assert |asCalled| != |intended|;
    }
  }

  /** With the intended call, every failed generation (a thrown call or text
      that does not decode) yields a fallback naming the task's company and
      title, greeting the assignee, and reporting the task's reminder count. */
  lemma ReminderForFallbackReportsTask(t: Task, response: ServiceResponse, parse: string -> Option<Reply>)
    requires response == ServiceError ||
      (response.Responded? && response.text.Some? && response.text.value != "" && parse(response.text.value) == None)
    ensures var r := ReminderFor(t, response, parse);
      var d := NatToString(t.reminderCount);
      var k := |ContentLead(t.assigneeEmail, t.companyName, t.title)|;
      r.subject == FallbackSubject(t.companyName, t.title) &&
      |Greeting(t.assigneeEmail)| <= k <= k + |d| <= |r.content| &&
      r.content[..|Greeting(t.assigneeEmail)|] == Greeting(t.assigneeEmail) &&
      DigitsValue(r.content[k..k + |d|]) == t.reminderCount
  {
    var d := NatToString(t.reminderCount);
    assert ReminderFor(t, response, parse) == FallbackReply(t.title, t.assigneeEmail, t.companyName, d);
    FallbackContentShape(t.assigneeEmail, t.companyName, t.title, d);
    FallbackContentCount(t.assigneeEmail, t.companyName, t.title, t.reminderCount);
  }
}

/** Interview invitations (agents/scheduler_agent.py).

    The language model that writes the invitation body, the SMTP exchange
    and the clock are collaborators.  The SMTP server, port and sender
    address are folded into `transport`, whose failure stands for any
    exception raised while sending.
 */
module Scheduler {
  import opened Wrappers
  import opened Text
  import opened Records

  /** The inputs of the invitation prompt. */
  datatype InvitePrompt = InvitePrompt(
    candidateName: string,
    candidateEmail: string,
    jobTitle: string,
    company: string,
    matchScore: real,
    strengths: string)

  /** The dictionary returned by `generate_interview_invite`. */
  datatype Invite = Invite(to: string, subject: string, body: string, status: string)

  datatype Services = Services(
    compose: InvitePrompt -> Result<string>,
    emailPassword: string,
    transport: (string, string, string) -> Outcome,
    clock: nat -> string)

  const SubjectLead: string := "Interview Invitation - "
  const SubjectJoin: string := " at "
  const GeneratedStatus: string := "generated"

  /** The subject line: the fixed lead, the title, " at ", the company. */
  function Subject(jobTitle: string, company: string): (r: string)
    ensures |r| == |SubjectLead| + |jobTitle| + |SubjectJoin| + |company|
    ensures r[..|SubjectLead|] == SubjectLead
    ensures r[|SubjectLead|..|SubjectLead| + |jobTitle|] == jobTitle
    ensures r[|SubjectLead| + |jobTitle|..|SubjectLead| + |jobTitle| + |SubjectJoin|] == SubjectJoin
    ensures r[|r| - |company|..] == company
  {
    SubjectLead + jobTitle + SubjectJoin + company
  }

  /** For a fixed company, the subject determines the job title. */
  lemma SubjectDeterminesTitle(t1: string, t2: string, company: string)
    requires Subject(t1, company) == Subject(t2, company)
    ensures t1 == t2
  {
    var s := Subject(t1, company);
    assert t1 == s[|SubjectLead|..|SubjectLead| + |t1|];
  }

  /** The strengths handed to the prompt: at most the first two, joined
      by ", ". */
  function StrengthsLine(strengths: seq<string>): (r: string)
    ensures |strengths| == 0 ==> r == ""
    ensures |strengths| == 1 ==> r == strengths[0]
  {
    Join(Prefix(strengths, 2), ", ")
  }

  /** Strengths after the second never reach the prompt. */
  lemma StrengthsLineIgnoresRest(strengths: seq<string>, more: seq<string>)
    requires |strengths| >= 2
    ensures StrengthsLine(strengths + more) == StrengthsLine(strengths[..2])
    ensures StrengthsLine(strengths) == strengths[0] + ", " + strengths[1]
  {
    assert Prefix(strengths + more, 2) == strengths[..2];
    assert Prefix(strengths[..2], 2) == strengths[..2];
    assert strengths[..2][1..] == [strengths[1]];
  }

  /** `generate_interview_invite`: the body is the model's text; a model
      error propagates. */
  function GenerateInterviewInvite(sv: Services, candidateName: string, candidateEmail: string, jobTitle: string,
                                   company: string, matchScore: real, strengths: seq<string>): (r: Result<Invite>)
    ensures var p := InvitePrompt(candidateName, candidateEmail, jobTitle, company, matchScore, StrengthsLine(strengths));
      && (r.Ok? <==> sv.compose(p).Ok?)
      && (r.Err? ==> r.msg == sv.compose(p).msg)
      && (r.Ok? ==> r.value.body == sv.compose(p).value)
    ensures r.Ok? ==> r.value.to == candidateEmail && r.value.subject == Subject(jobTitle, company)
                      && r.value.status == GeneratedStatus
  {
    var body :- sv.compose(InvitePrompt(candidateName, candidateEmail, jobTitle, company, matchScore, StrengthsLine(strengths)));
    Ok(Invite(candidateEmail, Subject(jobTitle, company), body, GeneratedStatus))
  }

  /** `send_email`: never raises.  With an empty password nothing is
      transmitted and the result is true; otherwise the result says whether
      the exchange went through. */
  function SendEmail(sv: Services, to: string, subject: string, body: string): (r: bool)
    ensures sv.emailPassword == "" ==> r
    ensures sv.emailPassword != "" ==> (r <==> sv.transport(to, subject, body).Pass?)
  {
    if sv.emailPassword == "" then true
    else sv.transport(to, subject, body).Pass?
  }

  /** In demo mode every e-mail counts as sent, whatever the transport would do. */
  lemma DemoModeIgnoresTransport(sv: Services, other: (string, string, string) -> Outcome, to: string, subject: string, body: string)
    requires sv.emailPassword == ""
    ensures SendEmail(sv, to, subject, body) == SendEmail(sv.(transport := other), to, subject, body) == true
  {
  }

  /** The result entry for one candidate, given its generated invite; the
      clock is read, at position `i`, only when the invite was sent. */
  function InviteEntry(sv: Services, c: Scored, invite: Invite, i: nat): (r: InviteResult)
    ensures r.scored == c && r.inviteSubject == invite.subject && r.inviteBody == invite.body
    ensures r.inviteSent == SendEmail(sv, invite.to, invite.subject, invite.body)
    ensures r.sentAt.None? <==> !r.inviteSent
    ensures r.sentAt.Some? ==> r.sentAt.value == sv.clock(i)
  {
    var sent := SendEmail(sv, invite.to, invite.subject, invite.body);
    InviteResult(c, sent, invite.subject, invite.body, if sent then Some(sv.clock(i)) else None)
  }

  function InviteFor(sv: Services, c: Scored, jobTitle: string, company: string): Result<Invite> {
    GenerateInterviewInvite(sv, c.candidate.name, c.candidate.email, jobTitle, company, c.result.matchScore, c.result.strengths)
  }

  /** The invite at `i` is the first one from `from` on that cannot be
      generated. */
  predicate FirstFailure(sv: Services, shortlisted: seq<Scored>, jobTitle: string, company: string, from: nat, i: nat)
    requires from <= i < |shortlisted|
  {
    && InviteFor(sv, shortlisted[i], jobTitle, company).Err?
    && forall j :: from <= j < i ==> InviteFor(sv, shortlisted[j], jobTitle, company).Ok?
  }

  /** `schedule_interviews` from position `from` on; the first model error
      propagates. */
  function ScheduleFrom(sv: Services, shortlisted: seq<Scored>, jobTitle: string, company: string, from: nat)
    : (r: Result<seq<InviteResult>>)
    requires from <= |shortlisted|
    ensures r.Ok? <==> forall i :: from <= i < |shortlisted| ==> InviteFor(sv, shortlisted[i], jobTitle, company).Ok?
    ensures r.Ok? ==> |r.value| == |shortlisted| - from && forall i :: from <= i < |shortlisted| ==>
      r.value[i - from] == InviteEntry(sv, shortlisted[i], InviteFor(sv, shortlisted[i], jobTitle, company).value, i)
    ensures r.Err? ==> exists i :: from <= i < |shortlisted| && FirstFailure(sv, shortlisted, jobTitle, company, from, i)
                                  && r.msg == InviteFor(sv, shortlisted[i], jobTitle, company).msg
    decreases |shortlisted| - from
  {
    if from == |shortlisted| then Ok([])
    else
      var invite :- InviteFor(sv, shortlisted[from], jobTitle, company);
      var rest :- ScheduleFrom(sv, shortlisted, jobTitle, company, from + 1);
      Ok([InviteEntry(sv, shortlisted[from], invite, from)] + rest)
  }

  /** `schedule_interviews`: one entry per shortlisted candidate, in order,
      each carrying the candidate's fields, the subject for the job, and a
      timestamp exactly when the invite went out. */
  function ScheduleInterviews(sv: Services, shortlisted: seq<Scored>, jobTitle: string, company: string)
    : (r: Result<seq<InviteResult>>)
    ensures r.Ok? <==> forall i :: 0 <= i < |shortlisted| ==> InviteFor(sv, shortlisted[i], jobTitle, company).Ok?
    ensures r.Ok? ==> |r.value| == |shortlisted|
    ensures r.Ok? ==> forall i :: 0 <= i < |shortlisted| ==>
      && r.value[i].scored == shortlisted[i]
      && r.value[i].inviteSubject == Subject(jobTitle, company)
      && (r.value[i].sentAt.None? <==> !r.value[i].inviteSent)
    ensures r.Ok? && sv.emailPassword == "" ==> forall i :: 0 <= i < |shortlisted| ==> r.value[i].inviteSent
    ensures r.Ok? ==> forall i :: 0 <= i < |shortlisted| ==>
      r.value[i] == InviteEntry(sv, shortlisted[i], InviteFor(sv, shortlisted[i], jobTitle, company).value, i)
    ensures r.Ok? ==> forall i :: 0 <= i < |shortlisted| ==>
      var invite := InviteFor(sv, shortlisted[i], jobTitle, company).value;
      && r.value[i].inviteBody == invite.body
      && r.value[i].inviteSent == SendEmail(sv, invite.to, invite.subject, invite.body)
    ensures r.Err? ==> exists i :: 0 <= i < |shortlisted| && FirstFailure(sv, shortlisted, jobTitle, company, 0, i)
                                  && r.msg == InviteFor(sv, shortlisted[i], jobTitle, company).msg
  {
    ScheduleFrom(sv, shortlisted, jobTitle, company, 0)
  }
}

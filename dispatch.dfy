/** `sendInvite`: mails one candidate the invitation for one round and, once
    MailerSend accepts the mail, stamps the record with the send time and the
    turnaround. The HTTP exchange is an input: what `fetch` came back with. */
module Dispatch {
  import opened Optional
  import opened Airtable
  import opened Tat

  /** The automation's input variables for one record. */
  datatype Invite = Invite(
    candidateName: string,
    email: string,
    role: string,
    roundName: string,
    calendlyLink: string,
    addedOn: int,
    recordId: nat)

  /** What `fetch` gave: a response with its status and body text, or a
      rejection (the request never got an answer). */
  datatype Fetched =
    | Responded(status: nat, body: string)
    | Rejected(message: string)

  /** Why the script ends in an exception. */
  datatype Failure =
    | ApiFailed(status: nat, errorText: string)
    | FetchFailed(message: string)
    | UpdateFailed(recordId: nat)

  /** What the script decides once the answer is in: stamp the record, or throw. */
  datatype Action =
    | Update(id: nat, mailSentTime: int, tatHours: nat)
    | Raise(error: Failure)

  /** How the run ends: the record was stamped, or the error that was rethrown. */
  datatype Outcome =
    | Sent(mailSentTime: int, tatHours: nat)
    | Failed(error: Failure)

  const SUBJECT_PREFIX: string := "Interview Invitation: "
  const SUBJECT_SEPARATOR: string := " - "
  const FAILURE_PREFIX: string := "MailerSend API failed with status "

  /** The subject line of the invitation. */
  function Subject(role: string, roundName: string): string {
    SUBJECT_PREFIX + role + SUBJECT_SEPARATOR + roundName
  }

  /** The subject reads back as the fixed prefix, the role, the separator and
      the round name, each at its own place. */
  lemma SubjectParts(role: string, roundName: string)
    ensures var s, p := Subject(role, roundName), |SUBJECT_PREFIX|;
            && |s| == p + |role| + 3 + |roundName|
            && s[..p] == SUBJECT_PREFIX
            && s[p..p + |role|] == role
            && s[p + |role|..p + |role| + 3] == SUBJECT_SEPARATOR
            && s[p + |role| + 3..] == roundName
  {
    var s, p := Subject(role, roundName), |SUBJECT_PREFIX|;
    assert s == SUBJECT_PREFIX + (role + (SUBJECT_SEPARATOR + roundName));
  }

  /** Two invitations for roles of the same length share a subject only when
      they share the role and the round. */
  lemma SubjectInjective(role1: string, round1: string, role2: string, round2: string)
    requires |role1| == |role2|
    requires Subject(role1, round1) == Subject(role2, round2)
    ensures role1 == role2 && round1 == round2
  {
    SubjectParts(role1, round1);
    SubjectParts(role2, round2);
  }

  /** MailerSend has taken the mail: 202 Accepted, or 200. */
  predicate IsAccepted(status: nat) {
    status == 202 || status == 200
  }

  /** The branch after `fetch`: an accepted mail is stamped with the send
      time and the turnaround from "Added On"; any other status, or a
      rejected request, is an error and writes nothing. */
  function Decide(invite: Invite, fetched: Fetched, now: int): (a: Action)
    ensures a.Update? <==> fetched.Responded? && IsAccepted(fetched.status)
    ensures a.Update? ==> a.id == invite.recordId && a.mailSentTime == now
    ensures fetched.Responded? && !IsAccepted(fetched.status) ==>
              a == Raise(ApiFailed(fetched.status, fetched.body))
    ensures fetched.Rejected? ==> a == Raise(FetchFailed(fetched.message))
  {
    match fetched
    case Rejected(message) => Raise(FetchFailed(message))
    case Responded(status, body) =>
      if IsAccepted(status) then Update(invite.recordId, now, CalculateTat(invite.addedOn, now))
      else Raise(ApiFailed(status, body))
  }

  /** The turnaround written is the one `calculateTAT` gives for "Added On"
      and the send time, so it is never negative and is 0 for a send at the
      added time. */
  lemma DecidedTurnaround(invite: Invite, status: nat, body: string, now: int)
    requires IsAccepted(status)
    ensures var a := Decide(invite, Responded(status, body), now);
            a.Update? && a.tatHours == CalculateTat(invite.addedOn, now)
            && (now <= invite.addedOn ==> a.tatHours == 0)
  {
    if now <= invite.addedOn {
      NeverNegativeElapsed(invite.addedOn, now);
    }
  }

  /** 201, 204, 400 and 500 are all errors, even the 2xx ones. */
  lemma OnlyTwoStatusesAccepted(invite: Invite, body: string, now: int)
    ensures Decide(invite, Responded(201, body), now).Raise?
    ensures Decide(invite, Responded(204, body), now).Raise?
    ensures Decide(invite, Responded(400, body), now) == Raise(ApiFailed(400, body))
    ensures Decide(invite, Responded(500, body), now) == Raise(ApiFailed(500, body))
  {
  }

  // ---------------------------------------------------------------------
  // The error text

  function DigitChar(d: nat): char
    requires d < 10
  {
    ('0' as int + d) as char
  }

  predicate IsDigit(c: char) {
    '0' <= c <= '9'
  }

  /** A number in decimal, as a template literal prints it. */
  function Decimal(n: nat): string
    decreases n
  {
    if n < 10 then [DigitChar(n)] else Decimal(n / 10) + [DigitChar(n % 10)]
  }

  /** The number a string of decimal digits stands for. */
  function DigitsValue(s: string): int
    requires forall k :: 0 <= k < |s| ==> IsDigit(s[k])
  {
    if s == [] then 0
    else DigitsValue(s[..|s| - 1]) * 10 + (s[|s| - 1] as int - '0' as int)
  }

  /** `Decimal` is digits only, without a leading zero, and reads back as the
      number it printed. */
  lemma {:induction false} DecimalRoundTrip(n: nat)
    ensures var s := Decimal(n);
            && s != []
            && (forall k :: 0 <= k < |s| ==> IsDigit(s[k]))
            && (|s| > 1 ==> s[0] != '0')
            && DigitsValue(s) == n
    decreases n
  {
    if n >= 10 {
      DecimalRoundTrip(n / 10);
      var s := Decimal(n);
      assert s[..|s| - 1] == Decimal(n / 10);
    }
  }

  /** The message of the error thrown for a refused mail. */
  function ApiFailureMessage(status: nat, errorText: string): string {
    FAILURE_PREFIX + Decimal(status) + ": " + errorText
  }

  /** The message names the status it was thrown for and ends with the body
      MailerSend sent back. */
  lemma ApiFailureMessageParts(status: nat, errorText: string)
    ensures var m, p, d := ApiFailureMessage(status, errorText), |FAILURE_PREFIX|, Decimal(status);
            && m[..p] == FAILURE_PREFIX
            && m[p..p + |d|] == d
            && (forall k :: 0 <= k < |d| ==> IsDigit(d[k])) && DigitsValue(d) == status
            && m[p + |d|..p + |d| + 2] == ": "
            && m[p + |d| + 2..] == errorText
  {
    var m, d := ApiFailureMessage(status, errorText), Decimal(status);
    DecimalRoundTrip(status);
    assert m == FAILURE_PREFIX + (d + (": " + errorText));
  }

  /** A refused mail with status 500 and body "oops" throws
      "MailerSend API failed with status 500: oops". */
  lemma ApiFailureMessageExample()
    ensures ApiFailureMessage(500, "oops") == "MailerSend API failed with status 500: oops"
  {
    assert Decimal(500) == "500" by {
      assert Decimal(5) == "5";
      assert Decimal(50) == "50";
    }
  }

  // ---------------------------------------------------------------------
  // The run

  /** `sendInvite` after `fetch` has answered with `fetched` at time `now`.
      An accepted mail leads to the one update call, for both cells; if that
      update is refused (no record with that id), its error is rethrown,
      though the mail has gone. Anything else throws before any call to the
      table is made. */
  method SendInvite(table: Table, invite: Invite, fetched: Fetched, now: int)
    returns (outcome: Outcome)
    requires table.Valid()
    modifies table
    ensures table.Valid()
    ensures table.nextId == old(table.nextId)
    ensures match Decide(invite, fetched, now)
            case Raise(error) =>
              && outcome == Failed(error)
              && table.rows == old(table.rows) && table.log == old(table.log)
            case Update(id, mailSentTime, tatHours) =>
              && table.rows == Stamp(old(table.rows), id, mailSentTime, tatHours)
              && table.log == old(table.log) + [UpdateCall(id, mailSentTime, tatHours)]
              && (HasId(old(table.rows), id) ==> outcome == Sent(mailSentTime, tatHours))
              && (!HasId(old(table.rows), id) ==> outcome == Failed(UpdateFailed(id)))
  {
    if fetched.Rejected? {
      return Failed(FetchFailed(fetched.message));
    }
    if IsAccepted(fetched.status) {
      var mailSentTime := now;
      var tatHours := CalculateTat(invite.addedOn, mailSentTime);
      var found := table.UpdateRecord(invite.recordId, mailSentTime, tatHours);
      if found {
        outcome := Sent(mailSentTime, tatHours);
      } else {
        outcome := Failed(UpdateFailed(invite.recordId));
      }
    } else {
      outcome := Failed(ApiFailed(fetched.status, fetched.body));
    }
  }

  /** The record is written exactly when MailerSend accepted the mail and
      the record exists, and then with both cells at once. */
  lemma WrittenIffAccepted(rows: seq<Record>, invite: Invite, fetched: Fetched, now: int)
    requires IdsIncreasing(rows)
    ensures var a := Decide(invite, fetched, now);
            var after := if a.Update? then Stamp(rows, a.id, a.mailSentTime, a.tatHours) else rows;
            && (after != rows ==> fetched.Responded? && IsAccepted(fetched.status))
            && (fetched.Responded? && IsAccepted(fetched.status) && HasId(rows, invite.recordId) ==>
                  forall k :: 0 <= k < |rows| && rows[k].id == invite.recordId ==>
                    && after[k].fields.mailSentTime == Some(now)
                    && after[k].fields.tatHours == Some(CalculateTat(invite.addedOn, now)))
  {
    var a := Decide(invite, fetched, now);
    if a.Update? {
      StampKeepsIds(rows, a.id, a.mailSentTime, a.tatHours);
      StampTouchesOnlyThatRecord(rows, a.id, a.mailSentTime, a.tatHours);
    }
  }
}

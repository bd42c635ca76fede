/** Candidate applications and their three-stage approval
    (src/services/Applications/candidateApplications.service.ts): the school
    dean, the accounts office and the dean of students each record a decision;
    the overall status follows from the three, and a fully approved
    application is promoted to a candidate. */
module ApplicationsService {
  import opened Common
  import opened ApplicationsValidator

  datatype Approval = Pending | Approved | Rejected

  /** The three approver roles the service knows. */
  const SchoolDean: string := "school_dean"
  const Accounts: string := "accounts"
  const DeanOfStudents: string := "dean_of_students"

  /** The payload of a new application (the schema's fields plus the
      election it is for). */
  datatype ApplicationInsert = ApplicationInsert(
    student_id: string,
    position_id: string,
    election_id: string,
    manifesto: string,
    documents_url: seq<string>,
    school: string)

  /** One stage's columns: `<stage>_status`, the approver's id and comment. */
  datatype Stage = Stage(status: Approval, approver_id: Option<string>, comment: Option<string>)

  /** A stored application row (src/drizzle/schema.ts:140-168). */
  datatype Application = Application(
    id: string,
    student_id: string,
    position_id: string,
    election_id: string,
    manifesto: string,
    documents_url: seq<string>,
    school: string,
    school_dean: Stage,
    accounts: Stage,
    dean_of_students: Stage,
    overall_status: Approval)

  /** A candidate row as the promotion inserts it. */
  datatype Candidate = Candidate(id: string, position_id: string, name: string, bio: string, school: string)

  datatype ApplicationError =
    | InvalidInput(errors: seq<FieldError>)
    | AlreadyApplied      // "You have already applied for this position"
    | NotFound            // "Application not found"
    | AlreadyProcessed    // "Cannot delete processed application"
    | NoValuesToSet       // the stage update for an unrecognised role sets no column and fails

  function Fields(input: ApplicationInsert): ApplicationFields {
    ApplicationFields(input.student_id, input.position_id, input.manifesto, input.documents_url, input.school)
  }

  /** The stored form of a new application: every stage and the overall
      status PENDING, no approver and no comment yet. */
  function NewApplication(id: string, input: ApplicationInsert): Application {
    var blank := Stage(Pending, None, None);
    Application(id, input.student_id, input.position_id, input.election_id, input.manifesto,
                input.documents_url, input.school, blank, blank, blank, Pending)
  }

  /** The decision of one approver on one stage; an empty or absent comment
      keeps the stored one. */
  function Recorded(stage: Stage, approver_id: string, status: Approval, comment: Option<string>): (r: Stage)
    ensures r.status == status && r.approver_id == Some(approver_id)
    ensures r.comment == if comment.Some? && comment.value != "" then comment else stage.comment
  {
    Stage(status, Some(approver_id), if comment.Some? && comment.value != "" then comment else stage.comment)
  }

  /** The stage an approver role acts on; None for any other role. */
  function StageOf(a: Application, role: string): Option<Stage> {
    if role == SchoolDean then Some(a.school_dean)
    else if role == Accounts then Some(a.accounts)
    else if role == DeanOfStudents then Some(a.dean_of_students)
    else None
  }

  /** The first update of `updateCandidateApplicationStatusService`: only the
      acting role's stage changes; any other role changes nothing. No order
      between the stages is enforced. */
  function ApplyDecision(a: Application, role: string, approver_id: string, status: Approval,
                         comment: Option<string>): (r: Application)
    ensures StageOf(a, role).Some? ==> StageOf(r, role) == Some(Recorded(StageOf(a, role).value, approver_id, status, comment))
    ensures forall other :: other != role ==> StageOf(r, other) == StageOf(a, other)
    ensures StageOf(a, role).None? ==> r == a
    ensures r.overall_status == a.overall_status
    ensures r == a.(school_dean := r.school_dean, accounts := r.accounts, dean_of_students := r.dean_of_students)
  {
    if role == SchoolDean then a.(school_dean := Recorded(a.school_dean, approver_id, status, comment))
    else if role == Accounts then a.(accounts := Recorded(a.accounts, approver_id, status, comment))
    else if role == DeanOfStudents then a.(dean_of_students := Recorded(a.dean_of_students, approver_id, status, comment))
    else a
  }

  predicate AllApproved(a: Application) {
    a.school_dean.status == Approved && a.accounts.status == Approved && a.dean_of_students.status == Approved
  }

  predicate AnyRejected(a: Application) {
    a.school_dean.status == Rejected || a.accounts.status == Rejected || a.dean_of_students.status == Rejected
  }

  /** The overall status after an update: APPROVED when all three stages are,
      REJECTED when any stage is, and otherwise whatever it was before. */
  function Settle(a: Application): (r: Application)
    ensures AllApproved(a) ==> r.overall_status == Approved
    ensures AnyRejected(a) ==> r.overall_status == Rejected
    ensures !AllApproved(a) && !AnyRejected(a) ==> r.overall_status == a.overall_status
    ensures r == a.(overall_status := r.overall_status)
  {
    var promoted := if AllApproved(a) then a.(overall_status := Approved) else a;
    if AnyRejected(promoted) then promoted.(overall_status := Rejected) else promoted
  }

  /** The candidate row a fully approved application becomes. */
  function CandidateFrom(a: Application, student_name: Option<string>): (c: Candidate)
    ensures c.id == a.student_id && c.position_id == a.position_id && c.bio == a.manifesto && c.school == a.school
    ensures c.name == if student_name.Some? && student_name.value != "" then student_name.value else "Unknown"
  {
    Candidate(a.student_id, a.position_id,
              if student_name.Some? && student_name.value != "" then student_name.value else "Unknown",
              a.manifesto, a.school)
  }

  /** `getPendingApplicationsForApproverService`: the applications whose stage
      for that role is PENDING; nothing for an unknown role. */
  function PendingFor(applications: map<string, Application>, role: string): (r: set<Application>)
    ensures forall a :: a in r <==> a in applications.Values && StageOf(a, role).Some? && StageOf(a, role).value.status == Pending
    ensures role != SchoolDean && role != Accounts && role != DeanOfStudents ==> r == {}
  {
    set a | a in applications.Values && StageOf(a, role).Some? && StageOf(a, role).value.status == Pending
  }

  /** A new application waits on all three approvers. */
  lemma NewApplicationPendingEverywhere(applications: map<string, Application>, id: string, input: ApplicationInsert)
    ensures var a := NewApplication(id, input);
      && a in PendingFor(applications[id := a], SchoolDean)
      && a in PendingFor(applications[id := a], Accounts)
      && a in PendingFor(applications[id := a], DeanOfStudents)
  {
    var a := NewApplication(id, input);
    assert a in applications[id := a].Values by {
      assert applications[id := a][id] == a;
    }
  }

  /** A non-pending decision takes the application off that role's queue and
      leaves it on the other roles' queues as it was. */
  lemma DecisionLeavesQueue(a: Application, role: string, approver_id: string, status: Approval, comment: Option<string>)
    requires StageOf(a, role).Some? && status != Pending
    ensures var updated := Settle(ApplyDecision(a, role, approver_id, status, comment));
      && StageOf(updated, role).value.status == status
      && forall other :: other != role ==> StageOf(updated, other) == StageOf(a, other)
  {
    var d := ApplyDecision(a, role, approver_id, status, comment);
    var updated := Settle(d);
    forall other ensures StageOf(updated, other) == StageOf(d, other) {
    }
  }

  /** The overall status is not monotone: a rejected application whose
      rejecting stage later approves, with the other two approved, becomes
      APPROVED. */
  lemma RejectionCanBeOverturned(a: Application, approver_id: string)
    requires a.overall_status == Rejected && a.school_dean.status == Rejected
    requires a.accounts.status == Approved && a.dean_of_students.status == Approved
    ensures Settle(ApplyDecision(a, SchoolDean, approver_id, Approved, None)).overall_status == Approved
  {
  }

  /** Moving a stage back to PENDING leaves a decided overall status as it
      was. */
  lemma OverallNotReopened(a: Application, role: string, approver_id: string)
    requires StageOf(a, role).Some? && a.overall_status == Approved && AllApproved(a)
    ensures Settle(ApplyDecision(a, role, approver_id, Pending, None)).overall_status == Approved
  {
  }

  /** At most one application per student. */
  ghost predicate OnePerStudent(applications: map<string, Application>) {
    forall i, j :: i in applications && j in applications && applications[i].student_id == applications[j].student_id ==> i == j
  }

  predicate HasApplied(applications: map<string, Application>, student_id: string) {
    exists id :: id in applications && applications[id].student_id == student_id
  }

  /** Replacing a stored application by one with the same key and student
      keeps one application per student. */
  lemma ReplaceKeepsOnePerStudent(applications: map<string, Application>, id: string, a: Application)
    requires OnePerStudent(applications) && id in applications
    requires a.student_id == applications[id].student_id
    ensures OnePerStudent(applications[id := a])
  {
  }

  /** The candidate-applications table and the candidates table. */
  class ApplicationStore {
    var applications: map<string, Application>
    var candidates: seq<Candidate>

    ghost predicate Valid()
      reads this
    {
      && OnePerStudent(applications)
      && forall id :: id in applications ==> applications[id].id == id
    }

    constructor ()
      ensures Valid() && applications == map[] && candidates == []
    {
      applications := map[];
      candidates := [];
    }

    /** `createCandidateApplicationService`: validate, refuse a student who
        already has an application (for any position or election), then
        store it as PENDING. `new_id` is the key the database generates. */
    method CreateApplication(input: ApplicationInsert, new_id: string, fmt: Formats)
      returns (r: Result<Application, ApplicationError>)
      requires Valid() && new_id !in applications
      modifies this
      ensures Valid() && candidates == old(candidates)
      ensures ValidateCandidateApplication(Fields(input), fmt).Invalid? ==>
        r == Err(InvalidInput(ValidateCandidateApplication(Fields(input), fmt).errors)) && applications == old(applications)
      ensures ValidateCandidateApplication(Fields(input), fmt).Valid? && old(HasApplied(applications, input.student_id)) ==>
        r == Err(AlreadyApplied) && applications == old(applications)
      ensures ValidateCandidateApplication(Fields(input), fmt).Valid? && !old(HasApplied(applications, input.student_id)) ==>
        r == Ok(NewApplication(new_id, input)) && applications == old(applications)[new_id := NewApplication(new_id, input)]
    {
      var validation := ValidateCandidateApplication(Fields(input), fmt);
      if validation.Invalid? {
        return Err(InvalidInput(validation.errors));
      }
      var existing := exists id :: id in applications && applications[id].student_id == input.student_id;
      if existing {
        return Err(AlreadyApplied);
      }
      var application := NewApplication(new_id, input);
      applications := applications[new_id := application];
      r := Ok(application);
    }

    /** `updateCandidateApplicationStatusService`: record the acting role's
        decision, promote a fully approved application to a candidate, and
        settle the overall status. `student_name` is the applicant's name as
        the users table holds it, if the applicant is found. A role that is
        not one of the three approvers leaves the stage update with no column
        to set, and that update fails before anything is written. */
    method UpdateApplicationStatus(application_id: string, role: string, approver_id: string,
                                   status: Approval, comment: Option<string>, student_name: Option<string>)
      returns (r: Result<Application, ApplicationError>)
      requires Valid()
      modifies this
      ensures Valid()
      ensures application_id !in old(applications) ==>
        r == Err(NotFound) && applications == old(applications) && candidates == old(candidates)
      ensures application_id in old(applications) && StageOf(old(applications)[application_id], role).None? ==>
        r == Err(NoValuesToSet) && applications == old(applications) && candidates == old(candidates)
      ensures application_id in old(applications) && StageOf(old(applications)[application_id], role).Some? ==>
        var decided := ApplyDecision(old(applications)[application_id], role, approver_id, status, comment);
        && r == Ok(Settle(decided))
        && applications == old(applications)[application_id := Settle(decided)]
        && candidates == old(candidates) + (if AllApproved(decided) then [CandidateFrom(decided, student_name)] else [])
    {
      if application_id !in applications {
        return Err(NotFound);
      }
      if StageOf(applications[application_id], role).None? {
        return Err(NoValuesToSet);
      }
      var updated := ApplyDecision(applications[application_id], role, approver_id, status, comment);
      if AllApproved(updated) {
        candidates := candidates + [CandidateFrom(updated, student_name)];
        updated := updated.(overall_status := Approved);
      }
      if AnyRejected(updated) {
        updated := updated.(overall_status := Rejected);
      }
      ReplaceKeepsOnePerStudent(applications, application_id, updated);
      applications := applications[application_id := updated];
      r := Ok(updated);
    }

    /** `deleteCandidateApplicationService`: only a PENDING application can be
        removed. */
    method DeleteApplication(application_id: string) returns (r: Result<string, ApplicationError>)
      requires Valid()
      modifies this
      ensures Valid() && candidates == old(candidates)
      ensures application_id !in old(applications) ==> r == Err(NotFound) && applications == old(applications)
      ensures application_id in old(applications) && old(applications)[application_id].overall_status != Pending ==>
        r == Err(AlreadyProcessed) && applications == old(applications)
      ensures application_id in old(applications) && old(applications)[application_id].overall_status == Pending ==>
        r == Ok("Candidate application deleted successfully") && applications == old(applications) - {application_id}
    {
      if application_id !in applications {
        return Err(NotFound);
      }
      if applications[application_id].overall_status != Pending {
        return Err(AlreadyProcessed);
      }
      applications := applications - {application_id};
      r := Ok("Candidate application deleted successfully");
    }
  }
}

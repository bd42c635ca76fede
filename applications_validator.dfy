/** The candidate-application schema and its result shaping
    (src/validators/Applications.validator.ts). The schema reports every
    failing rule, in the order of the schema's fields. */
module ApplicationsValidator {
  import opened Common

  /** The five values of the school enumeration. */
  const Schools: seq<string> := ["Science", "Education", "Business", "Humanities and Developmental_Studies", "TVET"]

  /** The fields the schema knows; any other field of the payload is not part
      of the validated data. */
  datatype ApplicationFields = ApplicationFields(
    student_id: string,
    position_id: string,
    manifesto: string,
    documents_url: seq<string>,
    school: string)

  datatype Validation =
    | Valid(data: ApplicationFields)
    | Invalid(errors: seq<FieldError>)

  const StudentIdError := FieldError("student_id", "Invalid student ID format")
  const PositionIdError := FieldError("position_id", "Invalid position ID format")
  const ManifestoError := FieldError("manifesto", "Manifesto must be at least 10 characters")
  const NoDocumentError := FieldError("documents_url", "At least one document is required")
  const SchoolError := FieldError("school", "Invalid school selected")

  /** The issue for the document at position `i`: its path is
      "documents_url" and the index, joined with ".". */
  function DocumentError(i: nat): FieldError {
    FieldError("documents_url." + NatToString(i), "Each document must be a valid URL")
  }

  /** One issue per document that is not a URL, in list order. */
  function DocumentIssues(urls: seq<string>, fmt: Formats): (r: seq<FieldError>)
    ensures forall e :: e in r <==> exists i :: 0 <= i < |urls| && !fmt.isUrl(urls[i]) && e == DocumentError(i)
  {
    if urls == [] then []
    else
      var n := |urls| - 1;
      var earlier := DocumentIssues(urls[..n], fmt);
      assert forall i :: 0 <= i < n ==> urls[..n][i] == urls[i];
      earlier + (if fmt.isUrl(urls[n]) then [] else [DocumentError(n)])
  }

  /** Every issue the schema raises, in field order. */
  function Issues(a: ApplicationFields, fmt: Formats): seq<FieldError> {
    (if fmt.isUuid(a.student_id) then [] else [StudentIdError])
    + (if fmt.isUuid(a.position_id) then [] else [PositionIdError])
    + (if |a.manifesto| >= 10 then [] else [ManifestoError])
    + (if |a.documents_url| >= 1 then [] else [NoDocumentError])
    + DocumentIssues(a.documents_url, fmt)
    + (if a.school in Schools then [] else [SchoolError])
  }

  /** The rules of the schema, field by field. */
  predicate Acceptable(a: ApplicationFields, fmt: Formats) {
    && fmt.isUuid(a.student_id)
    && fmt.isUuid(a.position_id)
    && |a.manifesto| >= 10
    && |a.documents_url| >= 1
    && (forall i :: 0 <= i < |a.documents_url| ==> fmt.isUrl(a.documents_url[i]))
    && a.school in Schools
  }

  /** An issue is raised exactly when the rule it names is broken. */
  predicate Explains(e: FieldError, a: ApplicationFields, fmt: Formats) {
    || (e == StudentIdError && !fmt.isUuid(a.student_id))
    || (e == PositionIdError && !fmt.isUuid(a.position_id))
    || (e == ManifestoError && |a.manifesto| < 10)
    || (e == NoDocumentError && |a.documents_url| == 0)
    || (exists i :: 0 <= i < |a.documents_url| && !fmt.isUrl(a.documents_url[i]) && e == DocumentError(i))
    || (e == SchoolError && a.school !in Schools)
  }

  /** `validateCandidateApplication`: the data itself when every rule holds,
      otherwise the list of issues, each explained by a broken rule and each
      broken rule reported. */
  function ValidateCandidateApplication(a: ApplicationFields, fmt: Formats): (r: Validation)
    ensures r.Valid? <==> Acceptable(a, fmt)
    ensures r.Valid? ==> r.data == a
    ensures r.Invalid? ==> |r.errors| > 0
    ensures r.Invalid? ==> forall e :: e in r.errors <==> Explains(e, a, fmt)
  {
    var issues := Issues(a, fmt);
    IssuesExplained(a, fmt);
    if issues == [] then
      assert Acceptable(a, fmt) by {
        forall i | 0 <= i < |a.documents_url| ensures fmt.isUrl(a.documents_url[i]) {
          if !fmt.isUrl(a.documents_url[i]) {
            assert Explains(DocumentError(i), a, fmt);
          }
        }
      }
      Valid(a)
    else
      assert !Acceptable(a, fmt) by {
        var e := issues[0];
        assert e in issues;
      }
      Invalid(issues)
  }

  lemma IssuesExplained(a: ApplicationFields, fmt: Formats)
    ensures forall e :: e in Issues(a, fmt) <==> Explains(e, a, fmt)
  {
    var docs := DocumentIssues(a.documents_url, fmt);
    forall e ensures e in Issues(a, fmt) <==> Explains(e, a, fmt) {
      assert e in docs <==> exists i :: 0 <= i < |a.documents_url| && !fmt.isUrl(a.documents_url[i]) && e == DocumentError(i);
    }
  }

  /** The document issues name each bad document by its own position. */
  lemma DocumentErrorsDistinct(i: nat, j: nat)
    requires DocumentError(i) == DocumentError(j)
    ensures i == j
  {
    var p := "documents_url.";
    assert p + NatToString(i) == p + NatToString(j);
    assert NatToString(i) == (p + NatToString(i))[|p|..];
    assert NatToString(j) == (p + NatToString(j))[|p|..];
    NatToStringInjective(i, j);
  }
}

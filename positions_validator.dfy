/** The position schema (src/validators/positions.validator.ts): field rules
    in field order, then one cross-field rule that keeps school-level
    positions out of coalitions. */
module PositionsValidator {
  import opened Common

  /** The tiers the schema accepts. The position-tier enumeration of the
      positions table is {"school", "university"}. */
  const Tiers: seq<string> := ["school", "college", "department"]
  const StoredTiers: seq<string> := ["school", "university"]

  /** A position payload; `coalition_id` is None when absent or null. */
  datatype PositionInput = PositionInput(
    election_id: string,
    name: string,
    description: Option<string>,
    tier: string,
    coalition_id: Option<string>)

  const ElectionIdError := FieldError("election_id", "election_id must be a valid UUID")
  const NameShortError := FieldError("name", "Position name must be at least 3 characters")
  const NameLongError := FieldError("name", "String must contain at most 100 character(s)")
  const CoalitionIdError := FieldError("coalition_id", "coalition_id must be a valid UUID")
  const SchoolCoalitionError := FieldError("coalition_id", "School-level positions cannot belong to a coalition")

  /** The enumeration's issue names the value it received. */
  function TierError(tier: string): FieldError {
    FieldError("tier", "Invalid enum value. Expected 'school' | 'college' | 'department', received '" + tier + "'")
  }

  /** The cross-field rule: a school-level position has no coalition (an
      empty identifier counts as none). */
  predicate CoalitionRuleHolds(p: PositionInput) {
    p.tier == "school" ==> p.coalition_id.None? || p.coalition_id.value == ""
  }

  /** The issues of the field rules, in field order, and then the issue of
      the cross-field rule; that rule is not evaluated when the tier is not
      one of the enumeration's values. */
  function PositionIssues(p: PositionInput, fmt: Formats): seq<FieldError> {
    (if fmt.isUuid(p.election_id) then [] else [ElectionIdError])
    + (if |p.name| >= 3 then [] else [NameShortError])
    + (if |p.name| <= 100 then [] else [NameLongError])
    + (if p.tier in Tiers then [] else [TierError(p.tier)])
    + (if p.coalition_id.None? || fmt.isUuid(p.coalition_id.value) then [] else [CoalitionIdError])
    + (if p.tier in Tiers && !CoalitionRuleHolds(p) then [SchoolCoalitionError] else [])
  }

  predicate PositionAcceptable(p: PositionInput, fmt: Formats) {
    && fmt.isUuid(p.election_id)
    && 3 <= |p.name| <= 100
    && p.tier in Tiers
    && (p.coalition_id.Some? ==> fmt.isUuid(p.coalition_id.value))
    && CoalitionRuleHolds(p)
  }

  /** The rule each issue reports. */
  predicate Explains(e: FieldError, p: PositionInput, fmt: Formats) {
    || (e == ElectionIdError && !fmt.isUuid(p.election_id))
    || (e == NameShortError && |p.name| < 3)
    || (e == NameLongError && |p.name| > 100)
    || (e == TierError(p.tier) && p.tier !in Tiers)
    || (e == CoalitionIdError && p.coalition_id.Some? && !fmt.isUuid(p.coalition_id.value))
    || (e == SchoolCoalitionError && p.tier in Tiers && !CoalitionRuleHolds(p))
  }

  /** The issue list holds exactly the issues of the broken rules, and is
      empty exactly when every rule holds. */
  lemma PositionIssuesExplained(p: PositionInput, fmt: Formats)
    ensures PositionIssues(p, fmt) == [] <==> PositionAcceptable(p, fmt)
    ensures forall e :: e in PositionIssues(p, fmt) <==> Explains(e, p, fmt)
  {
    var tier := TierError(p.tier);
    assert tier.field == "tier";
    forall e ensures e in PositionIssues(p, fmt) <==> Explains(e, p, fmt) {
      if e == tier {
        assert e in PositionIssues(p, fmt) <==> p.tier !in Tiers;
      }
    }
  }

  /** `positionValidator`: the payload when every rule holds, otherwise one
      issue per broken rule and nothing else. */
  function ValidatePosition(p: PositionInput, fmt: Formats): (r: Result<PositionInput, seq<FieldError>>)
    ensures r.Ok? <==> PositionAcceptable(p, fmt)
    ensures r.Ok? ==> r.value == p
    ensures r.Err? ==> |r.error| > 0 && forall e :: e in r.error <==> Explains(e, p, fmt)
  {
    PositionIssuesExplained(p, fmt);
    var issues := PositionIssues(p, fmt);
    if issues == [] then Ok(p) else Err(issues)
  }

  /** An unknown tier ends the object before the cross-field rule runs. */
  lemma UnknownTierSkipsCoalitionRule(p: PositionInput, fmt: Formats)
    requires p.tier !in Tiers
    ensures ValidatePosition(p, fmt).Err?
    ensures TierError(p.tier) in ValidatePosition(p, fmt).error
    ensures SchoolCoalitionError !in ValidatePosition(p, fmt).error
  {
    assert TierError(p.tier).field == "tier";
  }

  /** When the empty string is not a UUID, an accepted school-level position
      has no coalition: the table's CHECK constraint holds for it. */
  lemma AcceptedSchoolPositionHasNoCoalition(p: PositionInput, fmt: Formats)
    requires !fmt.isUuid("")
    requires ValidatePosition(p, fmt).Ok? && p.tier == "school"
    ensures p.coalition_id.None?
  {
  }

  /** Every accepted tier other than "school" is outside the table's tier
      enumeration, so such a position cannot be stored. */
  lemma AcceptedTierNotStored(p: PositionInput, fmt: Formats)
    requires ValidatePosition(p, fmt).Ok? && p.tier != "school"
    ensures p.tier !in StoredTiers
  {
  }
}

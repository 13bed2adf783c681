/** Which of the assignments materialised at activation the user is remembered at. */
module SeededPreference {
  import opened Wrappers
  import opened TeamAssignments

  /** An active row that becomes primary before any inactive row that asks to be. */
  ghost predicate ActivePrimaryFirst(dtos: seq<AssignmentDto>) {
    exists i :: 0 <= i < |dtos| && BecomesActivePrimary(dtos, i) && NoIdlePrimaryBefore(dtos, i)
  }

  ghost predicate BecomesActivePrimary(dtos: seq<AssignmentDto>, i: int)
    requires 0 <= i < |dtos|
  {
    AsksActive(dtos[i]) && (AskedPrimary(dtos, i) || PromotedPrimary(dtos, i))
  }

  ghost predicate NoIdlePrimaryBefore(dtos: seq<AssignmentDto>, i: nat)
    requires i <= |dtos|
  {
    forall j | 0 <= j < i :: AskedPrimary(dtos, j) ==> AsksActive(dtos[j])
  }

  /** The two choices on a normalised list: they agree exactly when the first primary row is active. */
  lemma ChoicesAgreeIff(list: seq<Assignment>, base: nat)
    requires exists i :: 0 <= i < |list| && list[i].isPrimary
    ensures FirstPrimary(list) < |list| && list[FirstPrimary(list)].isPrimary
    ensures forall j | 0 <= j < FirstPrimary(list) :: !list[j].isPrimary
    ensures PreferredActive(list, base) == Some(base + FirstPrimary(list)) <==> list[FirstPrimary(list)].isActive
  {
    hide FirstIndex;
  }

  /**
   * Seeding remembers the first primary row, replacing the first active primary one. The two agree, and the remembered
   * row is active, if and only if no inactive row that asks to be primary stands before the first active primary.
   */
  lemma SeedRemembersActiveIff(dtos: seq<AssignmentDto>, list: seq<Assignment>, base: nat)
    requires NormalForm(dtos, list)
    ensures FirstPrimary(list) < |list|
    ensures list[FirstPrimary(list)].isActive <==> ActivePrimaryFirst(dtos)
    ensures PreferredActive(list, base) == Some(base + FirstPrimary(list)) <==> ActivePrimaryFirst(dtos)
  {
    NormalFormHasPrimary(dtos, list);
    ChoicesAgreeIff(list, base);
    NormalFlags(dtos, list);
    FirstPrimaryActiveIff(dtos, list, FirstPrimary(list));
    hide NormalForm, FirstPrimary, PreferredActive, ActivePrimaryFirst;
  }

  lemma FirstPrimaryActiveIff(dtos: seq<AssignmentDto>, list: seq<Assignment>, p: nat)
    requires p < |list| == |dtos| && list[p].isPrimary && forall j | 0 <= j < p :: !list[j].isPrimary
    requires forall i | 0 <= i < |list| :: list[i].isActive <==> AsksActive(dtos[i])
    requires forall i | 0 <= i < |list| :: list[i].isPrimary <==> AskedPrimary(dtos, i) || PromotedPrimary(dtos, i)
    ensures list[p].isActive <==> ActivePrimaryFirst(dtos)
  {
    PromotedIsActive(dtos, p);
    hide AskedPrimary, PromotedPrimary, AsksActive;
    if list[p].isActive {
      assert BecomesActivePrimary(dtos, p) && NoIdlePrimaryBefore(dtos, p);
    }
    if ActivePrimaryFirst(dtos) {
      var i :| 0 <= i < |dtos| && BecomesActivePrimary(dtos, i) && NoIdlePrimaryBefore(dtos, i);
      assert p <= i;
    }
  }

  lemma NormalFlags(dtos: seq<AssignmentDto>, list: seq<Assignment>)
    requires NormalForm(dtos, list)
    ensures |list| == |dtos|
    ensures forall i | 0 <= i < |list| :: list[i].isActive <==> AsksActive(dtos[i])
    ensures forall i | 0 <= i < |list| :: list[i].isPrimary <==> AskedPrimary(dtos, i) || PromotedPrimary(dtos, i)
  {
    hide AskedPrimary, PromotedPrimary, ShiftOf, IsBlank;
  }

  lemma PromotedIsActive(dtos: seq<AssignmentDto>, i: nat)
    requires i < |dtos|
    ensures PromotedPrimary(dtos, i) ==> AsksActive(dtos[i])
  {
  }

  /** The smallest case: an inactive first row asked primary, and an active second one that is promoted. */
  lemma SeedRemembersIdleRow(first: StationId, second: StationId, role: UserRole, shift: TeamShift,
                             list: seq<Assignment>, base: nat)
    requires first != second && !IsBlank(first) && !IsBlank(second) && TeamManageable(role)
    requires NormalForm([AssignmentDto(first, Some(role), Some(true), Some(false), shift),
                         AssignmentDto(second, Some(role), None, None, shift)], list)
    ensures FirstPrimary(list) == 0 && !list[0].isActive && PreferredActive(list, base) == Some(base + 1)
  {
    var dtos := [AssignmentDto(first, Some(role), Some(true), Some(false), shift),
                 AssignmentDto(second, Some(role), None, None, shift)];
    assert dtos[0].isPrimary == Some(true) && AskedPrimary(dtos, 0) && !AskedPrimary(dtos, 1);
    assert !AsksActive(dtos[0]) && AsksActive(dtos[1]) && PromotedPrimary(dtos, 1);
    assert list[0].isPrimary && !list[0].isActive && list[1].isPrimary && list[1].isActive;
  }
}

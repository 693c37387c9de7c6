/** The single-active-prompt rule: what a save and a delete do to the active rows. */
module SystemPromptProperties {
  import opened SystemPrompts

  /** Saving an active record leaves it the only active row. */
  lemma SaveActiveIsOnlyActive(rows: Rows, pk: nat, record: SystemPrompt)
    requires record.isActive
    ensures ActiveKeys(Saved(rows, pk, record)) == {pk}
  {
    var after := Saved(rows, pk, record);
    forall k | k in after && k != pk ensures !after[k].isActive {
      assert after[k] == rows[k].(isActive := false);
    }
    assert pk in ActiveKeys(after);
  }

  /** Saving an inactive record leaves every other row as it was. */
  lemma SaveInactiveKeepsOthers(rows: Rows, pk: nat, record: SystemPrompt)
    requires !record.isActive
    ensures forall k :: k in rows && k != pk ==> Saved(rows, pk, record)[k] == rows[k]
    ensures ActiveKeys(Saved(rows, pk, record)) == ActiveKeys(rows) - {pk}
  {
  }

  /** A save writes its record, keeps every key, and changes nothing of other rows but their flag. */
  lemma SaveTouchesOnlyFlags(rows: Rows, pk: nat, record: SystemPrompt)
    ensures Saved(rows, pk, record).Keys == rows.Keys + {pk}
    ensures Saved(rows, pk, record)[pk] == record
    ensures forall k :: k in rows && k != pk ==>
      Saved(rows, pk, record)[k].name == rows[k].name
      && Saved(rows, pk, record)[k].prompt == rows[k].prompt
      && (Saved(rows, pk, record)[k].isActive ==> rows[k].isActive)
  {
  }

  /** Saves keep the invariant that at most one row is active. */
  lemma SaveKeepsAtMostOne(rows: Rows, pk: nat, record: SystemPrompt)
    requires AtMostOneActive(rows)
    ensures AtMostOneActive(Saved(rows, pk, record))
  {
    var after := Saved(rows, pk, record);
    if record.isActive {
      SaveActiveIsOnlyActive(rows, pk, record);
      forall a, b | a in after && b in after && after[a].isActive && after[b].isActive
        ensures a == b
      {
        assert a in ActiveKeys(after) && b in ActiveKeys(after);
      }
    } else {
      SaveInactiveKeepsOthers(rows, pk, record);
      forall a, b | a in after && b in after && after[a].isActive && after[b].isActive
        ensures a == b
      {
        assert a in ActiveKeys(after) && b in ActiveKeys(after);
      }
    }
  }

  /** With at most one active row, the first active row is the active row. */
  lemma FirstActiveIsTheActive(rows: Rows, k: nat)
    requires AtMostOneActive(rows)
    ensures FirstActive(rows, k) <==> ActiveKeys(rows) == {k}
  {
    if ActiveKeys(rows) == {k} {
      assert k in ActiveKeys(rows);
    }
    if FirstActive(rows, k) {
      forall j | j in ActiveKeys(rows) ensures j == k {
      }
    }
  }

  /** The guard only lets inactive rows go, so a delete never changes which rows are active. */
  lemma DeleteKeepsActive(rows: Rows, pk: nat, isStaff: bool, isPost: bool)
    ensures DeleteDecision(rows, pk, isStaff, isPost) == Deleted ==>
      ActiveKeys(rows - {pk}) == ActiveKeys(rows) && pk in rows
    ensures DeleteDecision(rows, pk, isStaff, isPost) == Deleted <==>
      isStaff && isPost && pk in rows && !rows[pk].isActive
  {
  }
}

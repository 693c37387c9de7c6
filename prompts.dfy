/**
  The `SystemPrompt` table (api/models.py) and the delete view's guard (api/views.py):
  saving an active prompt switches every other prompt off, `get_active` returns the
  active prompt with the smallest primary key, and an active prompt cannot be deleted.
  Rows are kept in a map from primary key to record; timestamps are not modelled.
 */
module SystemPrompts {
  import opened Wrappers

  /** One row: its name, its prompt text and whether it is the active one. */
  datatype SystemPrompt = SystemPrompt(name: string, prompt: string, isActive: bool)

  type Rows = map<nat, SystemPrompt>

  /** The keys of the active rows. */
  function ActiveKeys(rows: Rows): set<nat> {
    set k | k in rows && rows[k].isActive
  }

  /** The invariant the save rule keeps: no two rows are active. */
  predicate AtMostOneActive(rows: Rows) {
    forall a, b :: a in rows && b in rows && rows[a].isActive && rows[b].isActive ==> a == b
  }

  /** What `get_active` returns: the active row with the smallest key. */
  predicate FirstActive(rows: Rows, k: nat) {
    k in rows && rows[k].isActive && forall j :: j in rows && rows[j].isActive ==> k <= j
  }

  /** `exclude(pk=pk).update(is_active=False)`. */
  function Deactivated(rows: Rows, pk: nat): Rows {
    map k | k in rows :: if k == pk then rows[k] else rows[k].(isActive := false)
  }

  /** The rows after `save()` writes `record` under `pk`. */
  function Saved(rows: Rows, pk: nat, record: SystemPrompt): Rows {
    (if record.isActive then Deactivated(rows, pk) else rows)[pk := record]
  }

  /** The outcomes of the delete view, in the order it checks them. */
  datatype DeleteOutcome = Forbidden | NotFound | ActiveRefused | MethodNotAllowed | Deleted

  /** The delete view's decision: staff only, the row must exist, must not be active, and the request must be a POST. */
  function DeleteDecision(rows: Rows, pk: nat, isStaff: bool, isPost: bool): DeleteOutcome {
    if !isStaff then Forbidden
    else if pk !in rows then NotFound
    else if rows[pk].isActive then ActiveRefused
    else if !isPost then MethodNotAllowed
    else Deleted
  }

  class PromptTable {
    var rows: Rows

    constructor()
      ensures rows == map[]
    {
      rows := map[];
    }

    /** `SystemPrompt.save`: switch the others off when the record is active, then write it. */
    method Save(pk: nat, record: SystemPrompt)
      modifies this
      ensures rows == Saved(old(rows), pk, record)
    {
      if record.isActive {
        rows := Deactivated(rows, pk);
      }
      rows := rows[pk := record];
    }

    /** `SystemPrompt.get_active`: the first active row by key, with its key, or None. */
    method GetActive() returns (active: Option<(nat, SystemPrompt)>)
      ensures active.None? <==> ActiveKeys(rows) == {}
      ensures active.Some? ==> FirstActive(rows, active.value.0) && active.value.1 == rows[active.value.0]
    {
      var unseen := rows.Keys;
      var best: Option<nat> := None;
      while unseen != {}
        invariant unseen <= rows.Keys
        invariant best.Some? ==> best.value in rows && rows[best.value].isActive && best.value !in unseen
        invariant forall k :: k in rows && k !in unseen && rows[k].isActive ==> best.Some? && best.value <= k
        decreases unseen
      {
        var k :| k in unseen;
        if rows[k].isActive && (best.None? || k < best.value) {
          best := Some(k);
        }
        unseen := unseen - {k};
      }
      if best.None? {
        assert forall k :: k in rows ==> !rows[k].isActive;
        active := None;
      } else {
        assert best.value in ActiveKeys(rows);
        active := Some((best.value, rows[best.value]));
      }
    }

    /** `delete_system_prompt`: remove the row only when the guard lets the request through. */
    method Delete(pk: nat, isStaff: bool, isPost: bool) returns (outcome: DeleteOutcome)
      modifies this
      ensures outcome == DeleteDecision(old(rows), pk, isStaff, isPost)
      ensures rows == if outcome == Deleted then old(rows) - {pk} else old(rows)
    {
      outcome := DeleteDecision(rows, pk, isStaff, isPost);
      if outcome == Deleted {
        rows := rows - {pk};
      }
    }
  }
}

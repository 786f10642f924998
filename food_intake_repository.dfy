/**
 * The `food_intake` table behind `FoodIntakeRepository.kt`: one questionnaire record per patient,
 * keyed by the auto-generated `id` and looked up by `patientId`.
 */
module FoodIntakeRepo {
  import opened Wrappers
  import opened Records
  import Tables

  /** The primary key. */
  function RowId(f: FoodIntake): int { f.id }

  class FoodIntakeRepository {
    var rows: seq<FoodIntake>
    var nextId: int

    ghost predicate Valid()
      reads this
    {
      && Tables.KeysUnique(rows, RowId)
      && (forall i | 0 <= i < |rows| :: rows[i].id < nextId)
      && nextId >= 1
    }

    constructor ()
      ensures Valid() && rows == []
    {
      rows := [];
      nextId := 1;
    }

    /**
     * `insert`: a record with id 0 gets the next generated id; one with an id already in the table
     * is refused (the insert throws); any other is stored as given.
     */
    method Insert(f: FoodIntake) returns (inserted: bool)
      requires Valid()
      modifies this
      ensures Valid()
      ensures inserted <==> f.id == 0 || forall i | 0 <= i < |old(rows)| :: old(rows)[i].id != f.id
      ensures inserted && f.id == 0 ==> rows == old(rows) + [f.(id := old(nextId))]
      ensures inserted && f.id != 0 ==> rows == old(rows) + [f]
      ensures !inserted ==> rows == old(rows)
      ensures f.id == 0 ==> nextId == old(nextId) + 1
      ensures f.id != 0 ==> nextId == if inserted && f.id >= old(nextId) then f.id + 1 else old(nextId)
    {
      if f.id == 0 {
        rows := rows + [f.(id := nextId)];
        nextId := nextId + 1;
        inserted := true;
      } else if exists i | 0 <= i < |rows| :: rows[i].id == f.id {
        inserted := false;
      } else {
        rows := rows + [f];
        if f.id >= nextId {
          nextId := f.id + 1;
        }
        inserted := true;
      }
    }

    /** `updateFoodIntakeCheckbox`: the record gets the new ticks and is written back. */
    method UpdateFoodIntakeCheckbox(f: FoodIntake, checkboxes: seq<bool>) returns (updated: FoodIntake)
      requires Valid()
      modifies this
      ensures Valid()
      ensures updated == f.(checkboxes := checkboxes)
      ensures rows == Tables.ReplaceByKey(old(rows), RowId, updated) && nextId == old(nextId)
      ensures forall i | 0 <= i < |old(rows)| && old(rows)[i] == f :: rows == old(rows)[i := updated]
    {
      updated := f.(checkboxes := checkboxes);
      Write(updated);
    }

    /** `updateFoodIntakePersona`: the record gets the new persona and is written back. */
    method UpdateFoodIntakePersona(f: FoodIntake, persona: string) returns (updated: FoodIntake)
      requires Valid()
      modifies this
      ensures Valid()
      ensures updated == f.(persona := persona)
      ensures rows == Tables.ReplaceByKey(old(rows), RowId, updated) && nextId == old(nextId)
      ensures forall i | 0 <= i < |old(rows)| && old(rows)[i] == f :: rows == old(rows)[i := updated]
    {
      updated := f.(persona := persona);
      Write(updated);
    }

    /** `updateFoodIntakeTime`: each argument goes to the field of the same name. */
    method UpdateFoodIntakeTime(f: FoodIntake, eatTime: string, sleepTime: string, wakeUpTime: string)
      returns (updated: FoodIntake)
      requires Valid()
      modifies this
      ensures Valid()
      ensures updated == f.(eatTime := eatTime, sleepTime := sleepTime, wakeUpTime := wakeUpTime)
      ensures rows == Tables.ReplaceByKey(old(rows), RowId, updated) && nextId == old(nextId)
      ensures forall i | 0 <= i < |old(rows)| && old(rows)[i] == f :: rows == old(rows)[i := updated]
    {
      updated := f.(eatTime := eatTime, sleepTime := sleepTime, wakeUpTime := wakeUpTime);
      Write(updated);
    }

    /** Room's `@Update`: rewrite the row whose id is that of `x`. */
    method Write(x: FoodIntake)
      requires Valid()
      modifies this
      ensures Valid()
      ensures rows == Tables.ReplaceByKey(old(rows), RowId, x) && nextId == old(nextId)
      ensures forall i | 0 <= i < |old(rows)| && old(rows)[i].id == x.id :: rows == old(rows)[i := x]
    {
      forall i | 0 <= i < |rows| && rows[i].id == x.id
        ensures Tables.ReplaceByKey(rows, RowId, x) == rows[i := x]
      {
        Tables.ReplaceStoredRow(rows, RowId, i, x);
      }
      rows := Tables.ReplaceByKey(rows, RowId, x);
    }

    /** `getAllIntakesByPatientId`: the record of that patient, or null when there is none. */
    function GetAllIntakesByPatientId(patientId: string): (r: Option<FoodIntake>)
      reads this
      ensures r.None? <==> forall i | 0 <= i < |rows| :: rows[i].patientId != patientId
      ensures r.Some? ==> r.value.patientId == patientId && r.value in rows
    {
      Tables.FirstWhereFinds(rows, (f: FoodIntake) => f.patientId == patientId);
      Tables.FirstWhere(rows, (f: FoodIntake) => f.patientId == patientId)
    }
  }
}

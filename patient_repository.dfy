/**
 * The `patients` table behind `PatientRepository.kt`: rows in insertion order, keyed by the
 * auto-generated `id`, read back by `patientId` or ordered by `CAST(patientId AS INTEGER)`.
 */
module PatientRepo {
  import opened Wrappers
  import opened Records
  import Text
  import Tables

  /** The primary key. */
  function RowId(p: Patient): int { p.id }

  /** The longest prefix of `s` made of digits. */
  function DigitRun(s: string): (r: string)
    ensures |r| <= |s| && r == s[..|r|]
    ensures forall i | 0 <= i < |r| :: Text.IsDigit(r[i])
    ensures |r| < |s| ==> !Text.IsDigit(s[|r|])
  {
    if s != [] && Text.IsDigit(s[0]) then [s[0]] + DigitRun(s[1..]) else []
  }

  /** The number written by a string of decimal digits. */
  function DecimalValue(d: string): nat
    requires forall i | 0 <= i < |d| :: Text.IsDigit(d[i])
  {
    if d == [] then 0 else 10 * DecimalValue(d[..|d| - 1]) + Text.DigitValue(d[|d| - 1])
  }

  /**
   * SQLite's `CAST(text AS INTEGER)`: leading spaces are skipped, then an optional sign and the
   * longest run of digits is read; text with no digits there casts to 0.
   */
  function SqlCastInteger(s: string): (r: int)
    ensures (forall i | 0 <= i < |s| :: !Text.IsDigit(s[i])) ==> r == 0
  {
    var t := Text.DropLeading(s, Text.IsRegexSpace);
    if t != [] && t[0] == '-' then -(DecimalValue(DigitRun(t[1..])) as int)
    else if t != [] && t[0] == '+' then DecimalValue(DigitRun(t[1..]))
    else DecimalValue(DigitRun(t))
  }

  /** The sort key of `getAllPatients`. */
  function NumericPatientId(p: Patient): int { SqlCastInteger(p.patientId) }

  /** An id written in decimal digits casts to the number it writes; trailing text is ignored. */
  lemma CastReadsDigits(d: string, tail: string)
    requires d != [] && forall i | 0 <= i < |d| :: Text.IsDigit(d[i])
    requires tail == [] || !Text.IsDigit(tail[0])
    ensures SqlCastInteger(d + tail) == DecimalValue(d)
  {
    var s := d + tail;
    DigitRunOfDigits(d, tail);
    assert s[0] == d[0] && s[0] != '-' && s[0] != '+';
    LeadingNonSpaceKept(s);
  }

  /** A minus sign before the digits negates the number. */
  lemma CastReadsNegative(d: string, tail: string)
    requires d != [] && forall i | 0 <= i < |d| :: Text.IsDigit(d[i])
    requires tail == [] || !Text.IsDigit(tail[0])
    ensures SqlCastInteger(['-'] + (d + tail)) == -(DecimalValue(d) as int)
  {
    var s := d + tail;
    var m := ['-'] + s;
    DigitRunOfDigits(d, tail);
    assert m[0] == '-' && m[1..] == s;
    LeadingNonSpaceKept(m);
    assert DecimalValue(DigitRun(m[1..])) == DecimalValue(d);
  }

  lemma LeadingNonSpaceKept(s: string)
    requires s != [] && !Text.IsRegexSpace(s[0])
    ensures Text.DropLeading(s, Text.IsRegexSpace) == s
  {
  }

  lemma {:induction false} DigitRunOfDigits(d: string, tail: string)
    requires forall i | 0 <= i < |d| :: Text.IsDigit(d[i])
    requires tail == [] || !Text.IsDigit(tail[0])
    ensures DigitRun(d + tail) == d
  {
    if d != [] {
      assert (d + tail)[1..] == d[1..] + tail;
      DigitRunOfDigits(d[1..], tail);
    } else {
      assert d + tail == tail;
    }
  }

  /** The table after writing `x` over the row with its id. */
  function WithStored(rows: seq<Patient>, x: Patient): seq<Patient> {
    Tables.ReplaceByKey(rows, RowId, x)
  }

  /** The `patients` table. `nextId` is the id `autoGenerate` hands out next. */
  class PatientRepository {
    var rows: seq<Patient>
    var nextId: int

    ghost predicate Valid()
      reads this
    {
      && Tables.KeysUnique(rows, RowId)
      && (forall i | 0 <= i < |rows| :: rows[i].id < nextId)
      && nextId >= 1
    }

    constructor ()
      ensures Valid() && rows == []
    {
      rows := [];
      nextId := 1;
    }

    /**
     * `insertPatient`: a record with id 0 gets the next generated id; one with an id already in the
     * table is refused (the insert throws); any other is stored as given.
     */
    method InsertPatient(p: Patient) returns (inserted: bool)
      requires Valid()
      modifies this
      ensures Valid()
      ensures inserted <==> p.id == 0 || forall i | 0 <= i < |old(rows)| :: old(rows)[i].id != p.id
      ensures inserted && p.id == 0 ==> rows == old(rows) + [p.(id := old(nextId))]
      ensures inserted && p.id != 0 ==> rows == old(rows) + [p]
      ensures !inserted ==> rows == old(rows)
      ensures p.id == 0 ==> nextId == old(nextId) + 1
      ensures p.id != 0 ==> nextId == if inserted && p.id >= old(nextId) then p.id + 1 else old(nextId)
    {
      if p.id == 0 {
        rows := rows + [p.(id := nextId)];
        nextId := nextId + 1;
        inserted := true;
      } else if exists i | 0 <= i < |rows| :: rows[i].id == p.id {
        inserted := false;
      } else {
        rows := rows + [p];
        if p.id >= nextId {
          nextId := p.id + 1;
        }
        inserted := true;
      }
    }

    /**
     * `updatePatientPassword`: the caller's record gets the new password and is written back over
     * the row with its id; when that record is the stored row, only its password changes.
     */
    method UpdatePatientPassword(p: Patient, password: string) returns (updated: Patient)
      requires Valid()
      modifies this
      ensures Valid()
      ensures updated == p.(patientPassword := password)
      ensures rows == Tables.ReplaceByKey(old(rows), RowId, updated) && nextId == old(nextId)
      ensures forall i | 0 <= i < |old(rows)| && old(rows)[i] == p :: rows == old(rows)[i := updated]
    {
      updated := p.(patientPassword := password);
      Write(updated);
    }

    /** `updatePatientName`: as `UpdatePatientPassword`, for the name. */
    method UpdatePatientName(p: Patient, name: string) returns (updated: Patient)
      requires Valid()
      modifies this
      ensures Valid()
      ensures updated == p.(name := name)
      ensures rows == Tables.ReplaceByKey(old(rows), RowId, updated) && nextId == old(nextId)
      ensures forall i | 0 <= i < |old(rows)| && old(rows)[i] == p :: rows == old(rows)[i := updated]
    {
      updated := p.(name := name);
      Write(updated);
    }

    /** Room's `@Update`: rewrite the row whose id is that of `x`. */
    method Write(x: Patient)
      requires Valid()
      modifies this
      ensures Valid()
      ensures rows == Tables.ReplaceByKey(old(rows), RowId, x) && nextId == old(nextId)
      ensures forall i | 0 <= i < |old(rows)| && old(rows)[i].id == x.id :: rows == old(rows)[i := x]
    {
      forall i | 0 <= i < |rows| && rows[i].id == x.id
        ensures Tables.ReplaceByKey(rows, RowId, x) == rows[i := x]
      {
        Tables.ReplaceStoredRow(rows, RowId, i, x);
      }
      rows := Tables.ReplaceByKey(rows, RowId, x);
    }

    /** `getPatientById`: the row with that `patientId`, or null when there is none. */
    function GetPatientById(patientId: string): (r: Option<Patient>)
      reads this
      ensures r.None? <==> forall i | 0 <= i < |rows| :: rows[i].patientId != patientId
      ensures r.Some? ==> r.value.patientId == patientId && r.value in rows
    {
      Tables.FirstWhereFinds(rows, (q: Patient) => q.patientId == patientId);
      Tables.FirstWhere(rows, (q: Patient) => q.patientId == patientId)
    }

    /** `getAllPatients`: every row, ascending by the numeric value of `patientId`. */
    function GetAllPatients(): (r: seq<Patient>)
      reads this
      ensures Tables.SortedBy(r, NumericPatientId)
      ensures multiset(r) == multiset(rows)
    {
      Tables.SortBy(rows, NumericPatientId)
    }
  }
}

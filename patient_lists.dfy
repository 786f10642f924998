/**
 * The patient pickers of the account screens: registration offers the patients without a name,
 * login and password reset offer those with one (`getAllUnregisteredPatient`,
 * `getAllRegisteredPatient`).
 */
module PatientLists {
  import opened Records
  import Tables

  /** A patient counts as registered once a name has been stored for them. */
  predicate HasName(p: Patient) { p.name != [] }
  predicate HasNoName(p: Patient) { p.name == [] }

  /** `getAllRegisteredPatient`: the patients with a name, in list order. */
  function RegisteredPatients(all: seq<Patient>): (r: seq<Patient>)
    ensures forall i | 0 <= i < |r| :: r[i].name != [] && r[i] in all
    ensures forall i | 0 <= i < |all| :: all[i].name != [] ==> all[i] in r
  {
    Tables.Filter(all, HasName)
  }

  /** `getAllUnregisteredPatient`: the patients without a name, in list order. */
  function UnregisteredPatients(all: seq<Patient>): (r: seq<Patient>)
    ensures forall i | 0 <= i < |r| :: r[i].name == [] && r[i] in all
    ensures forall i | 0 <= i < |all| :: all[i].name == [] ==> all[i] in r
  {
    Tables.Filter(all, HasNoName)
  }

  /** Every patient is offered by exactly one of the two pickers, as often as they are listed. */
  lemma PickersPartitionPatients(all: seq<Patient>)
    ensures multiset(RegisteredPatients(all)) + multiset(UnregisteredPatients(all)) == multiset(all)
    ensures |RegisteredPatients(all)| + |UnregisteredPatients(all)| == |all|
  {
    Tables.FilterPartition(all, HasName, HasNoName);
  }

  /** Both pickers keep list order: picking from two lists one after the other picks from their concatenation. */
  lemma PickersKeepOrder(a: seq<Patient>, b: seq<Patient>)
    ensures RegisteredPatients(a + b) == RegisteredPatients(a) + RegisteredPatients(b)
    ensures UnregisteredPatients(a + b) == UnregisteredPatients(a) + UnregisteredPatients(b)
  {
    Tables.FilterAppend(a, b, HasName);
    Tables.FilterAppend(a, b, HasNoName);
  }
}

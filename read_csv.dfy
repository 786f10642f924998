/**
 * The first-launch import of the bundled patient file (`data/util/readCSV.kt`): each line after
 * the header becomes one patient and one empty questionnaire, and a preferences flag stops the
 * import from running twice.
 */
module CsvImport {
  import opened Wrappers
  import opened Records
  import opened Preferences
  import PatientRepo
  import FoodIntakeRepo

  /** Kotlin's `split(",")` with a one-character separator: every separator ends a piece, empty pieces included. */
  function SplitOn(s: string, sep: char): (r: seq<string>)
    ensures |r| >= 1
    ensures forall k | 0 <= k < |r| :: sep !in r[k]
  {
    if s == [] then [[]]
    else
      var rest := SplitOn(s[1..], sep);
      if s[0] == sep then [[]] + rest else [[s[0]] + rest[0]] + rest[1..]
  }

  /** `joinToString` with a one-character separator: n pieces without it are joined by n - 1 of it. */
  function JoinWith(parts: seq<string>, sep: char): (r: string)
    ensures |parts| >= 1 && (forall k | 0 <= k < |parts| :: sep !in parts[k]) ==> multiset(r)[sep] == |parts| - 1
  {
    if |parts| == 0 then []
    else if |parts| == 1 then parts[0]
    else parts[0] + [sep] + JoinWith(parts[1..], sep)
  }

  /** Putting a piece in front of a split string adds it to the first piece. */
  lemma JoinConsChar(c: char, parts: seq<string>, sep: char)
    requires |parts| >= 1
    ensures JoinWith([[c] + parts[0]] + parts[1..], sep) == [c] + JoinWith(parts, sep)
  {
    var v := [[c] + parts[0]] + parts[1..];
    if |parts| == 1 {
      assert v == [[c] + parts[0]];
    } else {
      JoinConsLongChar(c, parts, sep);
    }
  }

  lemma JoinConsLongChar(c: char, parts: seq<string>, sep: char)
    requires |parts| > 1
    ensures JoinWith([[c] + parts[0]] + parts[1..], sep) == [c] + JoinWith(parts, sep)
  {
    var v := [[c] + parts[0]] + parts[1..];
    assert v[1..] == parts[1..];
    var rest := JoinWith(parts[1..], sep);
    assert JoinWith(v, sep) == v[0] + [sep] + rest;
    assert ([c] + parts[0]) + [sep] + rest == [c] + (parts[0] + [sep] + rest);
  }

  /** Joining the pieces of a split rebuilds the line. */
  lemma {:induction false} SplitThenJoin(s: string, sep: char)
    ensures JoinWith(SplitOn(s, sep), sep) == s
  {
    if s != [] {
      var rest := SplitOn(s[1..], sep);
      SplitThenJoin(s[1..], sep);
      if s[0] == sep {
        assert ([[]] + rest)[1..] == rest;
        assert s == [sep] + s[1..];
      } else {
        JoinConsChar(s[0], rest, sep);
        assert s == [s[0]] + s[1..];
      }
    }
  }

  /** A piece without the separator followed by a separator is split off as the first piece. */
  lemma {:induction false} SplitAfterPiece(w: string, sep: char, t: string)
    requires sep !in w
    ensures SplitOn(w + [sep] + t, sep) == [w] + SplitOn(t, sep)
  {
    var s := w + [sep] + t;
    if w == [] {
      assert s == [sep] + t && s[1..] == t;
    } else {
      assert s[0] == w[0] && s[1..] == w[1..] + [sep] + t;
      SplitAfterPiece(w[1..], sep, t);
      assert [w[0]] + w[1..] == w;
    }
  }

  lemma {:induction false} SplitPiece(w: string, sep: char)
    requires sep !in w
    ensures SplitOn(w, sep) == [w]
  {
    if w != [] {
      SplitPiece(w[1..], sep);
      assert [w[0]] + w[1..] == w;
    }
  }

  /** Splitting joined separator-free pieces gives the pieces back. */
  lemma {:induction false} JoinThenSplit(parts: seq<string>, sep: char)
    requires |parts| >= 1 && forall k | 0 <= k < |parts| :: sep !in parts[k]
    ensures SplitOn(JoinWith(parts, sep), sep) == parts
  {
    if |parts| == 1 {
      SplitPiece(parts[0], sep);
    } else {
      JoinThenSplit(parts[1..], sep);
      SplitAfterPiece(parts[0], sep, JoinWith(parts[1..], sep));
      assert parts == [parts[0]] + parts[1..];
    }
  }

  /** The flag that records a finished import. */
  const IsReadKey: string := "isRead"

  /** Men's scores sit one column to the left of women's. */
  function Offset(sex: string): (offset: nat)
    ensures offset == 0 <==> sex == "Male"
    ensures offset <= 1
  {
    if sex == "Male" then 0 else 1
  }

  /** The columns of the 31 `Float` fields of a patient, in field order, for a man. */
  const BaseColumns: seq<nat> := [
    3, 5, 7, 8, 10, 13, 19, 21, 22, 29, 31, 33, 35, 36, 38, 40, 42,
    43, 45, 46, 48, 49, 51, 52, 53, 54, 56, 57, 59, 60, 62]

  /** Which of those fields are scores, whose column moves with the sex. */
  const IsScoreField: seq<bool> := [
    true, true, false, true, false, false, true, false, false, true, false, true, false, true, false, true, false,
    true, false, true, false, true, false, false, false, true, false, true, false, true, false]

  /** A row needs this many columns: the last one read is 62. */
  const ColumnCount: nat := 63

  function Columns(offset: nat): (cols: seq<nat>)
    requires offset <= 1
    ensures |cols| == |BaseColumns| == |IsScoreField| == 31
    ensures forall i | 0 <= i < |cols| :: cols[i] < ColumnCount
  {
    seq(|BaseColumns|, i requires 0 <= i < |BaseColumns| => BaseColumns[i] + if IsScoreField[i] then offset else 0)
  }

  /** The 31 `Float` fields of a patient, in declaration order. */
  function Measurements(p: Patient): (r: seq<real>)
    ensures |r| == 31
  {
    [p.totalScore, p.discretionaryScore, p.discretionaryServeSize, p.vegetableScore, p.vegetableServeSize,
     p.vegetableVarietyScore, p.fruitsScore, p.fruitServeSize, p.fruitVarietyScore, p.grainsScore,
     p.grainsServeSize, p.wholeGrainsScore, p.wholeGrainsServeSize, p.meatAlternativesScore,
     p.meatAlternativesServeSize, p.dairyScore, p.dairyServeSize, p.sodiumScore, p.sodiumMG, p.alcoholScore,
     p.alcoholServeSize, p.waterScore, p.water, p.waterTotalML, p.beverageTotalML, p.sugarScore, p.sugar,
     p.saturatedFatScore, p.saturatedFat, p.unsaturatedFatScore, p.unsaturatedFatServeSize]
  }

  /** Parses the given columns in turn; `None` as soon as one is not a number. */
  function ParseColumns(values: seq<string>, cols: seq<nat>, parseFloat: string -> Option<real>): (r: Option<seq<real>>)
    requires forall i | 0 <= i < |cols| :: cols[i] < |values|
    ensures r.Some? <==> forall i | 0 <= i < |cols| :: parseFloat(values[cols[i]]).Some?
    ensures r.Some? ==> |r.value| == |cols| && forall i | 0 <= i < |cols| :: r.value[i] == parseFloat(values[cols[i]]).value
  {
    if cols == [] then Some([])
    else match parseFloat(values[cols[0]]) {
      case None => None
      case Some(x) =>
        var rest := ParseColumns(values, cols[1..], parseFloat);
        if rest.None? then None else Some([x] + rest.value)
    }
  }

  /**
   * One line's fields as a new patient: phone number, patient id and sex from the first three
   * columns, no name or password yet. `None` when the line is too short or a number does not parse
   * (the import then throws).
   */
  function RowToPatient(values: seq<string>, parseFloat: string -> Option<real>): (r: Option<Patient>)
    ensures r.Some? <==> (|values| >= ColumnCount &&
      var cols := Columns(Offset(values[2])); forall i | 0 <= i < |cols| :: parseFloat(values[cols[i]]).Some?)
    ensures r.Some? ==> r.value.id == 0 && r.value.name == "" && r.value.patientPassword == ""
    ensures r.Some? ==> r.value.phoneNumber == values[0] && r.value.patientId == values[1] && r.value.sex == values[2]
    ensures r.Some? ==> var cols := Columns(Offset(values[2]));
      forall i | 0 <= i < 31 :: Measurements(r.value)[i] == parseFloat(values[cols[i]]).value
  {
    if |values| < ColumnCount then None
    else
      var cols := Columns(Offset(values[2]));
      match ParseColumns(values, cols, parseFloat) {
        case None => None
        case Some(f) =>
          Some(Patient(0, values[1], "", "", values[0], values[2],
            f[0], f[1], f[2], f[3], f[4], f[5], f[6], f[7], f[8], f[9], f[10], f[11], f[12], f[13], f[14], f[15],
            f[16], f[17], f[18], f[19], f[20], f[21], f[22], f[23], f[24], f[25], f[26], f[27], f[28], f[29], f[30]))
      }
  }

  /** Scores move one column to the right for anyone not recorded as "Male"; every other field keeps its column. */
  lemma ColumnsBySex(i: nat)
    requires i < 31
    ensures IsScoreField[i] ==> Columns(1)[i] == Columns(0)[i] + 1
    ensures !IsScoreField[i] ==> Columns(1)[i] == Columns(0)[i]
  {
  }

  /** The data line `line` as a new patient. */
  function LineParser(parseFloat: string -> Option<real>): (parse: string -> Option<Patient>)
    ensures YieldsNewRows(parse)
  {
    var parse := line => RowToPatient(SplitOn(line, ','), parseFloat);
    assert YieldsNewRows(parse) by {
      forall line | parse(line).Some?
        ensures parse(line).value.id == 0
      {
        var r := RowToPatient(SplitOn(line, ','), parseFloat);
        assert parse(line) == r;
      }
    }
    parse
  }

  /** What `parse` yields for the lines, up to the first line it fails on, and whether none failed. */
  function ParseLines<T>(lines: seq<string>, parse: string -> Option<T>): (r: (seq<T>, bool))
    ensures |r.0| <= |lines|
    ensures r.1 ==> |r.0| == |lines|
    ensures forall k | 0 <= k < |r.0| :: parse(lines[k]) == Some(r.0[k])
    ensures !r.1 ==> |r.0| < |lines| && parse(lines[|r.0|]).None?
  {
    if lines == [] then ([], true)
    else match parse(lines[0]) {
      case None => ([], false)
      case Some(p) =>
        var rest := ParseLines(lines[1..], parse);
        ([p] + rest.0, rest.1)
    }
  }

  /** After lines that all parse, one more line either adds its record or fails. */
  lemma {:induction false} ParseLinesSnoc<T>(a: seq<string>, line: string, parse: string -> Option<T>)
    requires ParseLines(a, parse).1
    ensures parse(line).Some? ==> ParseLines(a + [line], parse) == (ParseLines(a, parse).0 + [parse(line).value], true)
    ensures parse(line).None? ==> ParseLines(a + [line], parse) == (ParseLines(a, parse).0, false)
  {
    if a == [] {
      assert a + [line] == [line];
      assert [line][0] == line && [line][1..] == [];
      assert ParseLines([line][1..], parse) == ([], true);
      if parse(line).Some? {
        assert ParseLines([line], parse) == ([parse(line).value] + [], true);
        assert [parse(line).value] + [] == [] + [parse(line).value];
      }
    } else {
      var x := parse(a[0]).value;
      assert (a + [line])[0] == a[0] && (a + [line])[1..] == a[1..] + [line];
      ParseLinesSnoc(a[1..], line, parse);
      if parse(line).Some? {
        assert [x] + (ParseLines(a[1..], parse).0 + [parse(line).value]) == ([x] + ParseLines(a[1..], parse).0) + [parse(line).value];
      }
    }
  }

  /** Once a line fails, later lines are not looked at. */
  lemma {:induction false} ParseLinesStops<T>(a: seq<string>, b: seq<string>, parse: string -> Option<T>)
    requires !ParseLines(a, parse).1
    ensures ParseLines(a + b, parse) == ParseLines(a, parse)
  {
    assert a != [];
    assert (a + b)[0] == a[0] && (a + b)[1..] == a[1..] + b;
    if parse(a[0]).Some? {
      ParseLinesStops(a[1..], b, parse);
    }
  }

  /** One more line after lines that all parsed is added, or stops the parse whatever follows it. */
  lemma ParseNextLine<T>(a: seq<string>, line: string, b: seq<string>, parse: string -> Option<T>)
    requires ParseLines(a, parse).1
    ensures parse(line).Some? ==> ParseLines(a + [line], parse) == (ParseLines(a, parse).0 + [parse(line).value], true)
    ensures parse(line).None? ==> ParseLines(a + [line] + b, parse) == (ParseLines(a, parse).0, false)
  {
    ParseLinesSnoc(a, line, parse);
    if parse(line).None? {
      ParseLinesStops(a + [line], b, parse);
    }
  }

  /**
   * The k-th imported patient comes from the k-th data line (the header is not one of them): its
   * phone number, patient id and sex are that line's first three fields, it has no name or
   * password yet, and each measurement is read from its column for that sex.
   */
  lemma ImportedFromLine(file: seq<string>, parseFloat: string -> Option<real>, k: nat)
    requires k < |ParseLines(DataLines(file), LineParser(parseFloat)).0|
    ensures k + 1 < |file|
    ensures var p := ParseLines(DataLines(file), LineParser(parseFloat)).0[k];
      var values := SplitOn(file[k + 1], ',');
      && |values| >= ColumnCount
      && p.phoneNumber == values[0] && p.patientId == values[1] && p.sex == values[2]
      && p.id == 0 && p.name == "" && p.patientPassword == ""
      && forall i | 0 <= i < 31 :: Measurements(p)[i] == parseFloat(values[Columns(Offset(values[2]))[i]]).value
  {
    var lines := DataLines(file);
    var p := ParseLines(lines, LineParser(parseFloat)).0[k];
    assert lines[k] == file[k + 1];
    assert LineParser(parseFloat)(lines[k]) == RowToPatient(SplitOn(file[k + 1], ','), parseFloat);
  }

  /** `lines.drop(1)`: everything after the header line. */
  function DataLines(file: seq<string>): (r: seq<string>)
    ensures file != [] ==> r == file[1..]
    ensures file == [] ==> r == []
  {
    if file == [] then [] else file[1..]
  }

  /** Inserts one imported patient and an empty questionnaire for the same patient id. */
  method ImportRow(patients: PatientRepo.PatientRepository, intakes: FoodIntakeRepo.FoodIntakeRepository, p: Patient)
    requires patients.Valid() && intakes.Valid() && p.id == 0
    modifies patients, intakes
    ensures patients.Valid() && intakes.Valid()
    ensures patients.rows == old(patients.rows) + [p.(id := old(patients.nextId))]
    ensures intakes.rows == old(intakes.rows) + [NewFoodIntake(p.patientId).(id := old(intakes.nextId))]
  {
    var _ := patients.InsertPatient(p);
    var _ := intakes.Insert(NewFoodIntake(p.patientId));
  }

  /** `after` is `before` followed by the patients `got`, each under the id the table gave it. */
  predicate PatientsImported(before: seq<Patient>, after: seq<Patient>, got: seq<Patient>) {
    && |after| == |before| + |got| && after[..|before|] == before
    && forall k | 0 <= k < |got| :: after[|before| + k] == got[k].(id := after[|before| + k].id)
  }

  /** `after` is `before` followed by one empty questionnaire per patient of `got`, in the same order. */
  predicate IntakesImported(before: seq<FoodIntake>, after: seq<FoodIntake>, got: seq<Patient>) {
    && |after| == |before| + |got| && after[..|before|] == before
    && forall k | 0 <= k < |got| :: after[|before| + k] == NewFoodIntake(got[k].patientId).(id := after[|before| + k].id)
  }

  /** Importing one more patient extends both tables by its rows. */
  lemma ImportedSnoc(pb: seq<Patient>, pa: seq<Patient>, ib: seq<FoodIntake>, ia: seq<FoodIntake>,
                     got: seq<Patient>, p: Patient, pid: int, iid: int)
    requires PatientsImported(pb, pa, got) && IntakesImported(ib, ia, got)
    ensures PatientsImported(pb, pa + [p.(id := pid)], got + [p])
    ensures IntakesImported(ib, ia + [NewFoodIntake(p.patientId).(id := iid)], got + [p])
  {
    var pa', ia', got' := pa + [p.(id := pid)], ia + [NewFoodIntake(p.patientId).(id := iid)], got + [p];
    assert pa'[..|pb|] == pa[..|pb|];
    assert ia'[..|ib|] == ia[..|ib|];
    forall k | 0 <= k < |got'|
      ensures pa'[|pb| + k] == got'[k].(id := pa'[|pb| + k].id)
      ensures ia'[|ib| + k] == NewFoodIntake(got'[k].patientId).(id := ia'[|ib| + k].id)
    {
      if k < |got| {
        assert pa'[|pb| + k] == pa[|pb| + k] && ia'[|ib| + k] == ia[|ib| + k] && got'[k] == got[k];
      }
    }
  }

  /** Every record `parse` yields is a new row, still without its table id. */
  ghost predicate YieldsNewRows(parse: string -> Option<Patient>) {
    forall line :: parse(line).Some? ==> parse(line).value.id == 0
  }

  /**
   * The import loop of `readCSV`: each line in turn is parsed and its patient inserted with an
   * empty questionnaire for the same patient id; the first line that fails stops the loop, keeping
   * the rows already inserted. `complete` tells whether every line went in.
   */
  method ImportLines(lines: seq<string>, parse: string -> Option<Patient>,
                     patients: PatientRepo.PatientRepository, intakes: FoodIntakeRepo.FoodIntakeRepository)
    returns (complete: bool)
    requires patients.Valid() && intakes.Valid() && YieldsNewRows(parse)
    modifies patients, intakes
    ensures patients.Valid() && intakes.Valid()
    ensures complete == ParseLines(lines, parse).1
    ensures PatientsImported(old(patients.rows), patients.rows, ParseLines(lines, parse).0)
    ensures IntakesImported(old(intakes.rows), intakes.rows, ParseLines(lines, parse).0)
  {
    ghost var got: seq<Patient> := [];
    var i := 0;
    complete := true;
    while i < |lines|
      invariant 0 <= i <= |lines|
      invariant patients.Valid() && intakes.Valid()
      invariant complete ==> ParseLines(lines[..i], parse) == (got, true)
      invariant !complete ==> ParseLines(lines, parse) == (got, false)
      invariant PatientsImported(old(patients.rows), patients.rows, got)
      invariant IntakesImported(old(intakes.rows), intakes.rows, got)
      decreases |lines| - i
    {
      var row := parse(lines[i]);
      assert lines[..i + 1] == lines[..i] + [lines[i]];
      assert lines == lines[..i] + [lines[i]] + lines[i + 1..];
      ParseNextLine(lines[..i], lines[i], lines[i + 1..], parse);
      if row.None? {
        complete := false;
        break;
      }
      ghost var pid, iid := patients.nextId, intakes.nextId;
      ghost var pBefore, iBefore := patients.rows, intakes.rows;
      ImportRow(patients, intakes, row.value);
      ImportedSnoc(old(patients.rows), pBefore, old(intakes.rows), iBefore, got, row.value, pid, iid);
      got := got + [row.value];
      i := i + 1;
    }
    if complete {
      assert lines[..i] == lines;
    }
  }

  /**
   * `readCSV`: runs only when the import flag is unset. `file` is the asset's lines, `None` when it
   * cannot be opened. The data lines after the header are imported in order; the flag is set only
   * once every line is in, so an import that stops part-way leaves it unset.
   */
  method ReadCsv(prefs: Store, file: Option<seq<string>>, parseFloat: string -> Option<real>,
                 patients: PatientRepo.PatientRepository, intakes: FoodIntakeRepo.FoodIntakeRepository)
    returns (complete: bool)
    requires patients.Valid() && intakes.Valid()
    modifies prefs, patients, intakes
    ensures patients.Valid() && intakes.Valid()
    ensures FlagAt(old(prefs.entries), IsReadKey, false) || file.None? ==>
      !complete && prefs.entries == old(prefs.entries) && patients.rows == old(patients.rows) && intakes.rows == old(intakes.rows)
    ensures !FlagAt(old(prefs.entries), IsReadKey, false) && file.Some? ==>
      var parsed := ParseLines(DataLines(file.value), LineParser(parseFloat));
      && complete == parsed.1
      && PatientsImported(old(patients.rows), patients.rows, parsed.0)
      && IntakesImported(old(intakes.rows), intakes.rows, parsed.0)
    ensures complete ==> prefs.entries == old(prefs.entries)[IsReadKey := Flag(true)]
    ensures !complete ==> prefs.entries == old(prefs.entries)
  {
    if FlagAt(prefs.entries, IsReadKey, false) || file.None? {
      return false;
    }
    complete := ImportLines(DataLines(file.value), LineParser(parseFloat), patients, intakes);
    if complete {
      prefs.PutBoolean(IsReadKey, true);
    }
  }
}

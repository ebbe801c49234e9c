/** update_state.py: load a geocode-to-state mapping from the rows of a CSV
    file, apply it to tb_chart's state column as one UPDATE per pair, apply
    two manual corrections, then list the state values still invalid. The CSV
    reader is not modelled: the input is the rows it yields. */
module UpdateState {
  import opened Common
  import opened ChartTable
  import opened PyDict

  /** Why loading the mapping raises: `next(csv_reader)` on an empty file
      (StopIteration), or `row[0]` / `row[1]` on a row with fewer than two
      fields (IndexError), reported with that row's index in the file. */
  datatype LoadError = MissingHeader | ShortRow(line: nat)

  /** The loop of load_geocode_mapping over the data rows, from `line` on. */
  function LoadFrom(d: Dict, rows: seq<seq<string>>, line: nat): Result<Dict, LoadError>
    decreases |rows|
  {
    if rows == [] then Success(d)
    else if |rows[0]| < 2 then Failure(ShortRow(line))
    else LoadFrom(Put(d, PyStrip(rows[0][0]), PyStrip(rows[0][1])), rows[1..], line + 1)
  }

  /** load_geocode_mapping as a function of the file's rows: the header row
      is skipped, every other row stores stripped column 0 -> stripped column 1. */
  function GeocodeMapping(csv: seq<seq<string>>): Result<Dict, LoadError> {
    if csv == [] then Failure(MissingHeader) else LoadFrom([], csv[1..], 1)
  }

  /** load_geocode_mapping: the dict filled row by row. */
  method LoadGeocodeMapping(csv: seq<seq<string>>) returns (r: Result<Dict, LoadError>)
    ensures r == GeocodeMapping(csv)
  {
    if |csv| == 0 {
      return Failure(MissingHeader);
    }
    var geocodeToState: Dict := [];
    var i := 1;
    while i < |csv|
      invariant 1 <= i <= |csv|
      invariant LoadFrom(geocodeToState, csv[i..], i) == GeocodeMapping(csv)
    {
      var row := csv[i];
      if |row| < 2 {
        return Failure(ShortRow(i));
      }
      var geocode := PyStrip(row[0]);
      var state := PyStrip(row[1]);
      assert csv[i..][1..] == csv[i + 1..];
      geocodeToState := Put(geocodeToState, geocode, state);
      i := i + 1;
    }
    r := Success(geocodeToState);
  }

  /** The header row's content never matters. */
  lemma HeaderIgnored(header: seq<string>, other: seq<string>, rest: seq<seq<string>>)
    ensures GeocodeMapping([header] + rest) == GeocodeMapping([other] + rest)
  {
    assert ([header] + rest)[1..] == rest == ([other] + rest)[1..];
  }

  /** Loading succeeds when every data row has at least two fields ... */
  lemma {:induction false} LoadFromSucceeds(d: Dict, rows: seq<seq<string>>, line: nat)
    requires forall j :: 0 <= j < |rows| ==> |rows[j]| >= 2
    ensures LoadFrom(d, rows, line).Success?
    decreases |rows|
  {
    if rows != [] {
      assert forall j :: 0 <= j < |rows[1..]| ==> rows[1..][j] == rows[j + 1];
      LoadFromSucceeds(Put(d, PyStrip(rows[0][0]), PyStrip(rows[0][1])), rows[1..], line + 1);
    }
  }

  /** ... and otherwise fails at the first row that has fewer, whatever follows it. */
  lemma {:induction false} LoadFromFailsAtFirstShortRow(d: Dict, rows: seq<seq<string>>, line: nat, i: nat)
    requires i < |rows| && |rows[i]| < 2
    requires forall j :: 0 <= j < i ==> |rows[j]| >= 2
    ensures LoadFrom(d, rows, line) == Failure(ShortRow(line + i))
    decreases |rows|
  {
    if i > 0 {
      var rest := rows[1..];
      forall j | 0 <= j < i - 1 ensures |rest[j]| >= 2 {
        assert rest[j] == rows[j + 1];
      }
      assert rest[i - 1] == rows[i];
      LoadFromFailsAtFirstShortRow(Put(d, PyStrip(rows[0][0]), PyStrip(rows[0][1])), rest, line + 1, i - 1);
    }
  }

  /** The stripped geocode of a row with at least two fields. */
  function Geocode(row: seq<string>): string
    requires |row| >= 2
  {
    PyStrip(row[0])
  }

  /** The stripped state of a row with at least two fields. */
  function StateOf(row: seq<string>): string
    requires |row| >= 2
  {
    PyStrip(row[1])
  }

  /** A successful load has seen only rows with at least two fields. */
  lemma {:induction false} LoadedRowsAreLongEnough(d: Dict, rows: seq<seq<string>>, line: nat)
    requires LoadFrom(d, rows, line).Success?
    ensures forall j :: 0 <= j < |rows| ==> |rows[j]| >= 2
    decreases |rows|
  {
    if rows != [] {
      LoadedRowsAreLongEnough(Put(d, PyStrip(rows[0][0]), PyStrip(rows[0][1])), rows[1..], line + 1);
      forall j | 1 <= j < |rows| ensures |rows[j]| >= 2 {
        assert rows[j] == rows[1..][j - 1];
      }
    }
  }

  /** A geocode no loaded row names keeps the value it had before loading. */
  lemma {:induction false} LoadFromUntouched(d: Dict, rows: seq<seq<string>>, line: nat, k: string)
    requires LoadFrom(d, rows, line).Success?
    requires forall j :: 0 <= j < |rows| ==> |rows[j]| >= 2 && Geocode(rows[j]) != k
    ensures Get(LoadFrom(d, rows, line).value, k) == Get(d, k)
    decreases |rows|
  {
    if rows != [] {
      var d' := Put(d, Geocode(rows[0]), StateOf(rows[0]));
      PutGet(d, Geocode(rows[0]), StateOf(rows[0]), k);
      assert forall j :: 0 <= j < |rows[1..]| ==> rows[1..][j] == rows[j + 1];
      LoadFromUntouched(d', rows[1..], line + 1, k);
    }
  }

  /** The last row naming a geocode decides its state. */
  lemma {:induction false} LoadFromLastWins(d: Dict, rows: seq<seq<string>>, line: nat, i: nat)
    requires LoadFrom(d, rows, line).Success?
    requires i < |rows| && |rows[i]| >= 2
    requires forall j :: i < j < |rows| ==> |rows[j]| >= 2 && Geocode(rows[j]) != Geocode(rows[i])
    ensures Get(LoadFrom(d, rows, line).value, Geocode(rows[i])) == Some(StateOf(rows[i]))
    decreases |rows|
  {
    var d' := Put(d, Geocode(rows[0]), StateOf(rows[0]));
    assert LoadFrom(d, rows, line) == LoadFrom(d', rows[1..], line + 1);
    if i == 0 {
      PutGet(d, Geocode(rows[0]), StateOf(rows[0]), Geocode(rows[0]));
      assert forall j :: 0 <= j < |rows[1..]| ==> rows[1..][j] == rows[j + 1];
      LoadFromUntouched(d', rows[1..], line + 1, Geocode(rows[0]));
    } else {
      assert rows[1..][i - 1] == rows[i];
      assert forall j :: i - 1 < j < |rows[1..]| ==> rows[1..][j] == rows[j + 1];
      LoadFromLastWins(d', rows[1..], line + 1, i - 1);
    }
  }

  /** The mapping read from a file: a geocode that some data row names maps
      to the state of the last such row; a geocode no row names is absent. */
  lemma MappingLastRowWins(csv: seq<seq<string>>, k: string)
    requires GeocodeMapping(csv).Success?
    ensures forall j :: 1 <= j < |csv| ==> |csv[j]| >= 2
    ensures (forall j :: 1 <= j < |csv| ==> Geocode(csv[j]) != k) ==> Get(GeocodeMapping(csv).value, k) == None
    ensures forall i :: 1 <= i < |csv| && Geocode(csv[i]) == k
                        && (forall j :: i < j < |csv| ==> Geocode(csv[j]) != k) ==>
      Get(GeocodeMapping(csv).value, k) == Some(StateOf(csv[i]))
  {
    var rows := csv[1..];
    LoadedRowsAreLongEnough([], rows, 1);
    assert forall j :: 1 <= j < |csv| ==> csv[j] == rows[j - 1];
    if forall j :: 1 <= j < |csv| ==> Geocode(csv[j]) != k {
      LoadFromUntouched([], rows, 1, k);
    }
    forall i | 1 <= i < |csv| && Geocode(csv[i]) == k && (forall j :: i < j < |csv| ==> Geocode(csv[j]) != k)
      ensures Get(GeocodeMapping(csv).value, k) == Some(StateOf(csv[i]))
    {
      LoadFromLastWins([], rows, 1, i - 1);
    }
  }

  /** The keys of the loaded dict are distinct. */
  lemma {:induction false} LoadFromDistinct(d: Dict, rows: seq<seq<string>>, line: nat)
    requires DistinctKeys(d)
    requires LoadFrom(d, rows, line).Success?
    ensures DistinctKeys(LoadFrom(d, rows, line).value)
    decreases |rows|
  {
    if rows != [] {
      PutDistinct(d, PyStrip(rows[0][0]), PyStrip(rows[0][1]));
      LoadFromDistinct(Put(d, PyStrip(rows[0][0]), PyStrip(rows[0][1])), rows[1..], line + 1);
    }
  }

  /** `manual_corrections`, in its iteration order. */
  const ManualCorrections: Dict := [Entry("1", "DF"), Entry("34", "SP")]

  /** The effect of UPDATE tb_chart SET state = e.value WHERE state = e.key on
      one state value (SQL's `=` never matches NULL). */
  function Rewrite(state: Option<string>, e: Entry): Option<string> {
    if state == Some(e.key) then Some(e.value) else state
  }

  /** The effect of a sequence of such UPDATEs, in order. */
  function RewriteAll(state: Option<string>, pairs: seq<Entry>): Option<string> {
    if pairs == [] then state
    else Rewrite(RewriteAll(state, pairs[..|pairs| - 1]), pairs[|pairs| - 1])
  }

  /** Rewrites compose: applying p then q is applying p + q. */
  lemma {:induction false} RewriteAllConcat(state: Option<string>, p: seq<Entry>, q: seq<Entry>)
    ensures RewriteAll(state, p + q) == RewriteAll(RewriteAll(state, p), q)
  {
    if q != [] {
      assert (p + q)[..|p + q| - 1] == p + q[..|q| - 1];
      RewriteAllConcat(state, p, q[..|q| - 1]);
    } else {
      assert p + q == p;
    }
  }

  /** A state equal to no geocode of the sequence (in particular NULL) is left alone. */
  lemma {:induction false} UnmatchedStateUntouched(state: Option<string>, pairs: seq<Entry>)
    requires forall i :: 0 <= i < |pairs| ==> state != Some(pairs[i].key)
    ensures RewriteAll(state, pairs) == state
  {
    if pairs != [] {
      UnmatchedStateUntouched(state, pairs[..|pairs| - 1]);
    }
  }

  /** After the manual corrections no row is left with state '1' or '34'. */
  lemma NoCorrectedCodeLeft(state: Option<string>, pairs: seq<Entry>)
    ensures RewriteAll(state, pairs + ManualCorrections) != Some("1")
    ensures RewriteAll(state, pairs + ManualCorrections) != Some("34")
  {
    RewriteAllConcat(state, pairs, ManualCorrections);
    var s := RewriteAll(state, pairs);
    assert ManualCorrections[..1] == [Entry("1", "DF")];
    assert ManualCorrections[..1][..0] == [];
    assert RewriteAll(s, ManualCorrections[..1]) == Rewrite(s, Entry("1", "DF"));
    assert RewriteAll(s, ManualCorrections) == Rewrite(Rewrite(s, Entry("1", "DF")), Entry("34", "SP"));
  }

  /** UPDATE tb_chart SET state = to WHERE state = from. */
  method SetStateWhere(table: array<TableRow>, from: string, to: string)
    modifies table
    ensures forall j :: 0 <= j < table.Length ==>
      table[j] == old(table[j]).(state := Rewrite(old(table[j]).state, Entry(from, to)))
  {
    for j := 0 to table.Length
      invariant forall k :: 0 <= k < j ==>
        table[k] == old(table[k]).(state := Rewrite(old(table[k]).state, Entry(from, to)))
      invariant forall k :: j <= k < table.Length ==> table[k] == old(table[k])
    {
      if table[j].state == Some(from) {
        table[j] := table[j].(state := Some(to));
      }
    }
  }

  /** One UPDATE per pair, in the pairs' order. */
  method ApplyRewrites(table: array<TableRow>, pairs: seq<Entry>)
    modifies table
    ensures forall j :: 0 <= j < table.Length ==>
      table[j] == old(table[j]).(state := RewriteAll(old(table[j]).state, pairs))
  {
    for i := 0 to |pairs|
      invariant forall j :: 0 <= j < table.Length ==>
        table[j] == old(table[j]).(state := RewriteAll(old(table[j]).state, pairs[..i]))
    {
      SetStateWhere(table, pairs[i].key, pairs[i].value);
      assert pairs[..i + 1][..i] == pairs[..i];
    }
    assert pairs[..|pairs|] == pairs;
  }

  /** The check query's condition: state ~ '^[0-9]+$' OR state IS NULL. */
  predicate IsInvalidState(state: Option<string>) {
    state.None? || AllDigits(state.value)
  }

  /** SELECT DISTINCT state FROM tb_chart WHERE state ~ '^[0-9]+$' OR state IS NULL. */
  function InvalidStates(rows: seq<TableRow>): (r: set<Option<string>>)
    ensures forall s :: s in r ==> IsInvalidState(s) && exists j :: 0 <= j < |rows| && rows[j].state == s
    ensures forall j :: 0 <= j < |rows| && IsInvalidState(rows[j].state) ==> rows[j].state in r
  {
    if rows == [] then {}
    else
      var rest := InvalidStates(rows[1..]);
      assert forall j :: 1 <= j < |rows| ==> rows[j] == rows[1..][j - 1];
      assert forall s :: s in rest ==> exists j :: 0 <= j < |rows| && rows[j].state == s by {
        forall s | s in rest ensures exists j :: 0 <= j < |rows| && rows[j].state == s {
          var j :| 0 <= j < |rows[1..]| && rows[1..][j].state == s;
          assert rows[j + 1].state == s;
        }
      }
      (if IsInvalidState(rows[0].state) then {rows[0].state} else {}) + rest
  }

  /** update_states: load the mapping (an error aborts before any UPDATE),
      rewrite the states pair by pair, apply the corrections '1' -> 'DF' and
      '34' -> 'SP', and report the distinct states still numeric or NULL. */
  method UpdateStates(table: array<TableRow>, csv: seq<seq<string>>) returns (r: Result<set<Option<string>>, LoadError>)
    modifies table
    ensures GeocodeMapping(csv).Failure? ==>
      r == Failure(GeocodeMapping(csv).error) && table[..] == old(table[..])
    ensures GeocodeMapping(csv).Success? ==>
      (forall j :: 0 <= j < table.Length ==>
         table[j] == old(table[j]).(state := RewriteAll(old(table[j]).state, GeocodeMapping(csv).value + ManualCorrections)))
      && r == Success(InvalidStates(table[..]))
  {
    var loaded := LoadGeocodeMapping(csv);
    if loaded.Failure? {
      return Failure(loaded.error);
    }
    ghost var before := table[..];
    ApplyRewrites(table, loaded.value);
    ghost var mid := table[..];
    ApplyRewrites(table, ManualCorrections);
    forall j | 0 <= j < table.Length
      ensures table[j] == before[j].(state := RewriteAll(before[j].state, loaded.value + ManualCorrections))
    {
      RewriteAllConcat(before[j].state, loaded.value, ManualCorrections);
    }
    r := Success(InvalidStates(table[..]));
  }
}

/** update_countries.py: rewrite the country column of tb_chart to ISO 3166-1
    alpha-2 codes. The iso3166 library's `countries.get(name).alpha2` is the
    partial function `library` (a name it does not know raises KeyError). */
module UpdateCountries {
  import opened Common
  import opened ChartTable

  /** country_name_to_iso: the manual table consulted before the library. */
  const ManualCodes: map<string, string> := map[
    "United States" := "US",
    "United Kingdom" := "GB",
    "China (People's Republic of)" := "CN",
    "Russia" := "RU",
    "Korea" := "KR",
    "Czech Republic" := "CZ",
    "Slovak Republic" := "SK",
    "Argentina" := "AR",
    "Brazil" := "BR",
    "Bulgaria" := "BG",
    "Croatia" := "HR",
    "Cyprus" := "CY",
    "India" := "IN",
    "Indonesia" := "ID",
    "Kazakhstan" := "KZ",
    "Malta" := "MT",
    "Philippines" := "PH",
    "Romania" := "RO",
    "South Africa" := "ZA",
    "Ukraine" := "UA",
    "Viet Nam" := "VN"
  ]

  /** Two upper-case ASCII letters. */
  predicate IsAlpha2(code: string) {
    |code| == 2 && IsUpper(code[0]) && IsUpper(code[1])
  }

  lemma ManualCodesAreAlpha2()
    ensures forall name :: name in ManualCodes ==> IsAlpha2(ManualCodes[name])
  {
  }

  /** The SELECT's WHERE clause: LENGTH(country) > 2 OR country ~ '^[0-9]+$'.
      A NULL country satisfies neither. */
  predicate IsCandidate(country: Option<string>) {
    country.Some? && (|country.value| > 2 || AllDigits(country.value))
  }

  /** The code a selected country value resolves to, or None when the script
      skips it (not found in the manual table nor in the library). */
  function Resolve(name: string, library: map<string, string>): Option<string> {
    if AllDigits(name) then Some("BR")
    else
      var key := PyStrip(name);
      if key in ManualCodes && ManualCodes[key] != "" then Some(ManualCodes[key])
      else if key in library then Some(library[key])
      else None
  }

  /** The effect of the whole script on one row. */
  function NormaliseRow(row: TableRow, library: map<string, string>): TableRow {
    if IsCandidate(row.country) then
      match Resolve(row.country.value, library)
      case Some(code) => row.(country := Some(code))
      case None => row
    else row
  }

  /** Whether the script rewrites (and counts) this row. */
  predicate Rewritten(row: TableRow, library: map<string, string>) {
    IsCandidate(row.country) && Resolve(row.country.value, library).Some?
  }

  function CountRewritten(rows: seq<TableRow>, library: map<string, string>): (n: nat)
    ensures n <= |rows|
  {
    if rows == [] then 0
    else (if Rewritten(rows[0], library) then 1 else 0) + CountRewritten(rows[1..], library)
  }

  /** A row the SELECT returns: (id, country). */
  datatype Fetched = Fetched(id: int, name: string)

  function IdsOf(fetched: seq<Fetched>): set<int> {
    set p | 0 <= p < |fetched| :: fetched[p].id
  }

  /** SELECT id, country FROM tb_chart WHERE LENGTH(country) > 2 OR country ~ '^[0-9]+$'
      (in table order). */
  function SelectCandidates(rows: seq<TableRow>): (r: seq<Fetched>)
    ensures |r| <= |rows|
  {
    if rows == [] then []
    else if IsCandidate(rows[0].country) then
      [Fetched(rows[0].id, rows[0].country.value)] + SelectCandidates(rows[1..])
    else SelectCandidates(rows[1..])
  }

  /** Every fetched pair is the (id, country) of a candidate row. */
  lemma {:induction false} SelectedFrom(rows: seq<TableRow>, p: nat) returns (j: nat)
    requires p < |SelectCandidates(rows)|
    ensures j < |rows| && IsCandidate(rows[j].country)
    ensures SelectCandidates(rows)[p] == Fetched(rows[j].id, rows[j].country.value)
  {
    if IsCandidate(rows[0].country) && p == 0 {
      j := 0;
    } else {
      var q := if IsCandidate(rows[0].country) then p - 1 else p;
      var k := SelectedFrom(rows[1..], q);
      j := k + 1;
    }
  }

  /** Every candidate row is fetched. */
  lemma {:induction false} CandidateSelected(rows: seq<TableRow>, j: nat) returns (p: nat)
    requires j < |rows| && IsCandidate(rows[j].country)
    ensures p < |SelectCandidates(rows)|
    ensures SelectCandidates(rows)[p] == Fetched(rows[j].id, rows[j].country.value)
  {
    if j == 0 {
      p := 0;
    } else {
      var q := CandidateSelected(rows[1..], j - 1);
      p := if IsCandidate(rows[0].country) then q + 1 else q;
    }
  }

  /** With unique ids, the fetched ids are distinct too. */
  lemma {:induction false} SelectedIdsDistinct(rows: seq<TableRow>, p: nat, p': nat)
    requires UniqueIds(rows)
    requires p < p' < |SelectCandidates(rows)|
    ensures SelectCandidates(rows)[p].id != SelectCandidates(rows)[p'].id
  {
    if IsCandidate(rows[0].country) && p == 0 {
      var k := SelectedFrom(rows[1..], p' - 1);
      assert rows[1..][k] == rows[k + 1];
    } else {
      var d := if IsCandidate(rows[0].country) then 1 else 0;
      assert UniqueIds(rows[1..]) by {
        forall i, j | 0 <= i < |rows[1..]| && 0 <= j < |rows[1..]| && rows[1..][i].id == rows[1..][j].id
          ensures i == j
        {
          assert rows[i + 1].id == rows[j + 1].id;
        }
      }
      SelectedIdsDistinct(rows[1..], p - d, p' - d);
    }
  }

  /** How many fetched pairs resolve to a code. */
  function CountResolvable(fetched: seq<Fetched>, library: map<string, string>): (n: nat)
    ensures n <= |fetched|
  {
    if fetched == [] then 0
    else (if Resolve(fetched[0].name, library).Some? then 1 else 0) + CountResolvable(fetched[1..], library)
  }

  lemma {:induction false} CountResolvableSnoc(fetched: seq<Fetched>, f: Fetched, library: map<string, string>)
    ensures CountResolvable(fetched + [f], library)
            == CountResolvable(fetched, library) + (if Resolve(f.name, library).Some? then 1 else 0)
  {
    if fetched != [] {
      assert (fetched + [f])[1..] == fetched[1..] + [f];
      CountResolvableSnoc(fetched[1..], f, library);
    }
  }

  /** Counting over the fetched pairs is counting the rewritten rows of the table. */
  lemma {:induction false} CountSelected(rows: seq<TableRow>, library: map<string, string>)
    ensures CountResolvable(SelectCandidates(rows), library) == CountRewritten(rows, library)
  {
    if rows != [] {
      CountSelected(rows[1..], library);
    }
  }

  /** The table after UPDATE tb_chart SET country = code WHERE id = id. */
  function WithCountry(rows: seq<TableRow>, id: int, code: string): (r: seq<TableRow>)
    ensures |r| == |rows|
    ensures forall j :: 0 <= j < |rows| && rows[j].id == id ==> r[j] == rows[j].(country := Some(code))
    ensures forall j :: 0 <= j < |rows| && rows[j].id != id ==> r[j] == rows[j]
  {
    seq(|rows|, j requires 0 <= j < |rows| => if rows[j].id == id then rows[j].(country := Some(code)) else rows[j])
  }

  /** UPDATE tb_chart SET country = code WHERE id = id, row by row. */
  method SetCountryById(table: array<TableRow>, id: int, code: string)
    modifies table
    ensures table[..] == WithCountry(old(table[..]), id, code)
  {
    for j := 0 to table.Length
      invariant forall k :: 0 <= k < j ==>
        table[k] == if old(table[k]).id == id then old(table[k]).(country := Some(code)) else old(table[k])
      invariant forall k :: j <= k < table.Length ==> table[k] == old(table[k])
    {
      if table[j].id == id {
        table[j] := table[j].(country := Some(code));
      }
    }
  }

  /** The table once the rows with ids in `done` have been processed. */
  ghost predicate Progress(t: seq<TableRow>, before: seq<TableRow>, done: set<int>, library: map<string, string>) {
    |t| == |before|
    && forall j :: 0 <= j < |t| ==>
      t[j] == if before[j].id in done then NormaliseRow(before[j], library) else before[j]
  }

  /** Processing the next fetched pair extends the progress by its id. */
  lemma {:induction false} ProcessNext(before: seq<TableRow>, library: map<string, string>, i: nat, t: seq<TableRow>)
    requires UniqueIds(before)
    requires i < |SelectCandidates(before)|
    requires Progress(t, before, IdsOf(SelectCandidates(before)[..i]), library)
    ensures var f := SelectCandidates(before)[i];
      var t2 := match Resolve(f.name, library)
                case Some(code) => WithCountry(t, f.id, code)
                case None => t;
      Progress(t2, before, IdsOf(SelectCandidates(before)[..i + 1]), library)
  {
    var rows := SelectCandidates(before);
    var f := rows[i];
    var src := SelectedFrom(before, i);
    assert f.id !in IdsOf(rows[..i]) by {
      if f.id in IdsOf(rows[..i]) {
        var p :| 0 <= p < i && rows[..i][p].id == f.id;
        SelectedIdsDistinct(before, p, i);
        assert false;
      }
    }
    assert IdsOf(rows[..i + 1]) == IdsOf(rows[..i]) + {f.id} by {
      assert rows[..i + 1] == rows[..i] + [f];
    }
    var t2 := match Resolve(f.name, library)
              case Some(code) => WithCountry(t, f.id, code)
              case None => t;
    forall j | 0 <= j < |t|
      ensures t2[j] == if before[j].id in IdsOf(rows[..i + 1]) then NormaliseRow(before[j], library) else before[j]
    {
      if before[j].id == f.id {
        assert j == src;
      } else {
        assert t[j].id == before[j].id;
      }
    }
  }

  /** update_country_codes: fetch the candidate rows, resolve each one's
      country, rewrite it by id and count it; skip (and do not count) a name
      neither the manual table nor the library knows. */
  method UpdateCountryCodes(table: array<TableRow>, library: map<string, string>) returns (updatedCount: nat)
    requires UniqueIds(table[..])
    modifies table
    ensures forall j :: 0 <= j < table.Length ==> table[j] == NormaliseRow(old(table[j]), library)
    ensures updatedCount == CountRewritten(old(table[..]), library)
  {
    ghost var before := table[..];
    var rows := SelectCandidates(table[..]);
    updatedCount := 0;
    assert rows[..0] == [];
    for i := 0 to |rows|
      invariant Progress(table[..], before, IdsOf(rows[..i]), library)
      invariant updatedCount == CountResolvable(rows[..i], library)
    {
      var f := rows[i];
      ProcessNext(before, library, i, table[..]);
      var code := Resolve(f.name, library);
      if code.Some? {
        SetCountryById(table, f.id, code.value);
        updatedCount := updatedCount + 1;
      }
      CountResolvableSnoc(rows[..i], f, library);
      assert rows[..i + 1] == rows[..i] + [f];
    }
    assert rows[..|rows|] == rows;
    forall j | 0 <= j < table.Length
      ensures table[j] == NormaliseRow(before[j], library)
    {
      assert table[..][j] == table[j];
      if IsCandidate(before[j].country) {
        var p := CandidateSelected(before, j);
        assert before[j].id in IdsOf(rows) by {
          assert rows[p].id == before[j].id;
        }
      }
    }
    CountSelected(before, library);
  }

  /** What the script does to one row, case by case: a row the SELECT does not
      return is untouched; an all-digit country becomes "BR"; otherwise the
      stripped name is looked up in the manual table first and in the library
      only when the manual table has no entry; a name neither knows leaves the
      row as it was and uncounted. */
  lemma ResolutionCases(row: TableRow, library: map<string, string>)
    ensures !IsCandidate(row.country) ==> NormaliseRow(row, library) == row && !Rewritten(row, library)
    ensures IsCandidate(row.country) && AllDigits(row.country.value) ==>
      NormaliseRow(row, library) == row.(country := Some("BR")) && Rewritten(row, library)
    ensures IsCandidate(row.country) && !AllDigits(row.country.value) && PyStrip(row.country.value) in ManualCodes ==>
      NormaliseRow(row, library) == row.(country := Some(ManualCodes[PyStrip(row.country.value)]))
    ensures IsCandidate(row.country) && !AllDigits(row.country.value) && PyStrip(row.country.value) !in ManualCodes
            && PyStrip(row.country.value) in library ==>
      NormaliseRow(row, library) == row.(country := Some(library[PyStrip(row.country.value)]))
    ensures IsCandidate(row.country) && !AllDigits(row.country.value) && PyStrip(row.country.value) !in ManualCodes
            && PyStrip(row.country.value) !in library ==>
      NormaliseRow(row, library) == row && !Rewritten(row, library)
    ensures NormaliseRow(row, library).id == row.id && NormaliseRow(row, library).state == row.state
  {
    ManualCodesAreAlpha2();
  }

  /** The library's alpha-2 codes are two upper-case letters. */
  ghost predicate LibraryIsAlpha2(library: map<string, string>) {
    forall name :: name in library ==> IsAlpha2(library[name])
  }

  function NormaliseTable(rows: seq<TableRow>, library: map<string, string>): (r: seq<TableRow>)
    ensures |r| == |rows|
    ensures forall j :: 0 <= j < |rows| ==> r[j] == NormaliseRow(rows[j], library)
  {
    seq(|rows|, j requires 0 <= j < |rows| => NormaliseRow(rows[j], library))
  }

  /** A rewritten row holds a two-letter code, which the SELECT no longer returns. */
  lemma RewrittenRowIsFinal(row: TableRow, library: map<string, string>)
    requires LibraryIsAlpha2(library)
    ensures !Rewritten(NormaliseRow(row, library), library)
    ensures NormaliseRow(NormaliseRow(row, library), library) == NormaliseRow(row, library)
  {
    ManualCodesAreAlpha2();
    if Rewritten(row, library) {
      var code := NormaliseRow(row, library).country.value;
      assert IsAlpha2(code);
      assert !AllDigits(code) by {
        assert !IsDigit(code[0]);
      }
    }
  }

  /** Running the script a second time rewrites no row and counts zero. */
  lemma {:induction false} SecondRunRewritesNothing(rows: seq<TableRow>, library: map<string, string>)
    requires LibraryIsAlpha2(library)
    ensures CountRewritten(NormaliseTable(rows, library), library) == 0
    ensures NormaliseTable(NormaliseTable(rows, library), library) == NormaliseTable(rows, library)
  {
    if rows != [] {
      SecondRunRewritesNothing(rows[1..], library);
      RewrittenRowIsFinal(rows[0], library);
      assert NormaliseTable(rows, library)[1..] == NormaliseTable(rows[1..], library);
    }
    forall j | 0 <= j < |rows|
      ensures NormaliseTable(NormaliseTable(rows, library), library)[j] == NormaliseTable(rows, library)[j]
    {
      RewrittenRowIsFinal(rows[j], library);
    }
  }

  /** Every counted row really changes: a candidate's country is longer than
      two characters or all digits, and a code is two upper-case letters. */
  lemma RewrittenRowChanges(row: TableRow, library: map<string, string>)
    requires LibraryIsAlpha2(library)
    ensures Rewritten(row, library) <==> NormaliseRow(row, library) != row
  {
    ManualCodesAreAlpha2();
    if Rewritten(row, library) {
      var code := NormaliseRow(row, library).country.value;
      assert IsAlpha2(code);
      if AllDigits(row.country.value) {
        assert !IsDigit(code[0]);
        assert code != row.country.value;
      }
    }
  }
}

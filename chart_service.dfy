/** ChartService: findByParams over the tb_chart entity and its projection to
    ChartQueryDTO. */
module ChartService {
  import opened Common
  import opened QueryFilter

  /** A tb_chart row as the ChartEntity class declares it. `period` is a date
      column compared with a string parameter; it is kept as that string.
      The timestamps are opaque numbers. */
  datatype ChartEntity = ChartEntity(
    id: int,
    country: string,
    state: string,
    city: string,
    source: string,
    period: string,
    labelName: string,
    value: int,
    createdAt: int,
    updatedAt: int,
    analysis: string,
    transactionType: string)

  /** ChartQueryDTO. ChartEntity declares no external_id column, so the value
      toDTO copies from `entity.external_id` is undefined: None here. */
  datatype ChartQueryDto = ChartQueryDto(
    country: string,
    state: string,
    city: string,
    source: string,
    period: string,
    labelName: string,
    value: int,
    analysis: string,
    externalId: Option<string>)

  /** The columns a where-condition can name, by their property names. */
  function Columns(e: ChartEntity): map<string, string> {
    map["analysis" := e.analysis, "country" := e.country, "state" := e.state,
        "period" := e.period, "source" := e.source, "city" := e.city, "label" := e.labelName]
  }

  function ProjectEntity(e: ChartEntity): ChartQueryDto {
    ChartQueryDto(e.country, e.state, e.city, e.source, e.period, e.labelName, e.value, e.analysis, None)
  }

  /** toDTO: `entities.map(...)`, one DTO per entity, in order, each field
      copied from the same-named entity field. */
  function ToDto(entities: seq<ChartEntity>): (r: seq<ChartQueryDto>)
    ensures |r| == |entities|
    ensures forall i :: 0 <= i < |r| ==>
      r[i].country == entities[i].country && r[i].state == entities[i].state
      && r[i].city == entities[i].city && r[i].source == entities[i].source
      && r[i].period == entities[i].period && r[i].labelName == entities[i].labelName
      && r[i].value == entities[i].value && r[i].analysis == entities[i].analysis
      && r[i].externalId == None
  {
    if entities == [] then [] else [ProjectEntity(entities[0])] + ToDto(entities[1..])
  }

  /** toDTO is a map: projecting a concatenation is concatenating the projections. */
  lemma {:induction false} ToDtoConcat(a: seq<ChartEntity>, b: seq<ChartEntity>)
    ensures ToDto(a + b) == ToDto(a) + ToDto(b)
  {
    if a != [] {
      assert (a + b)[1..] == a[1..] + b;
      ToDtoConcat(a[1..], b);
    }
  }

  /** id, created_at, updated_at and transaction_type are not exposed: two
      entity lists that differ only in those fields give the same DTOs. */
  lemma {:induction false} HiddenFieldsNotExposed(a: seq<ChartEntity>, b: seq<ChartEntity>)
    requires |a| == |b|
    requires forall i :: 0 <= i < |a| ==>
      a[i].(id := 0, createdAt := 0, updatedAt := 0, transactionType := "")
      == b[i].(id := 0, createdAt := 0, updatedAt := 0, transactionType := "")
    ensures ToDto(a) == ToDto(b)
  {
    if a != [] {
      assert a[0].(id := 0, createdAt := 0, updatedAt := 0, transactionType := "")
          == b[0].(id := 0, createdAt := 0, updatedAt := 0, transactionType := "");
      HiddenFieldsNotExposed(a[1..], b[1..]);
    }
  }

  /** findByParams. `repository` is what the data source's `find` resolves to
      for the built where-condition's table: None stands for null or undefined. */
  method FindByParams(q: Query, repository: Option<seq<ChartEntity>>) returns (r: Result<seq<ChartQueryDto>, NotFound>)
    ensures r.Failure? <==> repository.None?
    ensures r.Failure? ==> r.error == NotFound("Chart not found")
    ensures repository.Some? ==> r == Success(ToDto(Find(repository.value, Conditions(q), Columns)))
    ensures repository.Some? && Find(repository.value, Conditions(q), Columns) == [] ==> r == Success([])
  {
    var where := BuildWhereConditions(q);
    var entities: Option<seq<ChartEntity>> := None;
    if repository.Some? {
      entities := Some(Find(repository.value, where, Columns));
    }
    if entities.None? {
      return Failure(NotFound("Chart not found"));
    }
    r := Success(ToDto(entities.value));
  }

  /** A row whose columns satisfy the query's conditions holds the requested values. */
  lemma EntityMatchesQuery(q: Query, e: ChartEntity)
    requires Satisfies(Columns(e), Conditions(q))
    ensures e.analysis == q.analysis && e.country == q.country && e.state == q.state
    ensures Truthy(q.period) ==> e.period == q.period.value
    ensures Truthy(q.source) ==> e.source == q.source.value
    ensures Truthy(q.city) ==> e.city == q.city.value
    ensures Truthy(q.labelName) ==> e.labelName == q.labelName.value
  {
    var cols := Columns(e);
    SatisfiesQuery(q, cols);
    assert cols["analysis"] == e.analysis && cols["country"] == e.country && cols["state"] == e.state;
    assert cols["period"] == e.period && cols["source"] == e.source;
    assert cols["city"] == e.city && cols["label"] == e.labelName;
  }

  /** Every DTO findByParams returns comes from a row that matches every
      condition of the query. */
  lemma {:induction false} ResultsSatisfyQuery(q: Query, rows: seq<ChartEntity>, i: nat)
    requires i < |Find(rows, Conditions(q), Columns)|
    ensures var e := Find(rows, Conditions(q), Columns)[i];
      var d := ToDto(Find(rows, Conditions(q), Columns))[i];
      e in rows && d.analysis == q.analysis && d.country == q.country && d.state == q.state
      && (Truthy(q.period) ==> d.period == q.period.value)
      && (Truthy(q.source) ==> d.source == q.source.value)
      && (Truthy(q.city) ==> d.city == q.city.value)
      && (Truthy(q.labelName) ==> d.labelName == q.labelName.value)
  {
    var found := Find(rows, Conditions(q), Columns);
    var e := found[i];
    assert e in found;
    EntityMatchesQuery(q, e);
    var d := ToDto(found)[i];
    assert d.analysis == e.analysis && d.country == e.country && d.state == e.state;
    assert d.period == e.period && d.source == e.source && d.city == e.city && d.labelName == e.labelName;
  }
}

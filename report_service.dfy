/** ReportService: findByParams over report records and their projection to
    ReportQueryDTO. The where-condition is the same one ChartService builds
    (QueryFilter). The ReportEntity class is not part of this model; the
    record below holds the fields toDTO reads, which are also the columns a
    where-condition can name. */
module ReportService {
  import opened Common
  import opened QueryFilter

  datatype ReportEntity = ReportEntity(
    country: string,
    state: string,
    city: string,
    source: string,
    period: string,
    labelName: string,
    value: int,
    analysis: string,
    externalId: string)

  datatype ReportQueryDto = ReportQueryDto(
    country: string,
    state: string,
    city: string,
    source: string,
    period: string,
    labelName: string,
    value: int,
    analysis: string,
    externalId: string)

  function Columns(e: ReportEntity): map<string, string> {
    map["analysis" := e.analysis, "country" := e.country, "state" := e.state,
        "period" := e.period, "source" := e.source, "city" := e.city, "label" := e.labelName]
  }

  function ProjectEntity(e: ReportEntity): ReportQueryDto {
    ReportQueryDto(e.country, e.state, e.city, e.source, e.period, e.labelName, e.value, e.analysis, e.externalId)
  }

  /** toDTO: one DTO per entity, in order, every field copied unchanged. */
  function ToDto(entities: seq<ReportEntity>): (r: seq<ReportQueryDto>)
    ensures |r| == |entities|
    ensures forall i :: 0 <= i < |r| ==>
      r[i].country == entities[i].country && r[i].state == entities[i].state
      && r[i].city == entities[i].city && r[i].source == entities[i].source
      && r[i].period == entities[i].period && r[i].labelName == entities[i].labelName
      && r[i].value == entities[i].value && r[i].analysis == entities[i].analysis
      && r[i].externalId == entities[i].externalId
  {
    if entities == [] then [] else [ProjectEntity(entities[0])] + ToDto(entities[1..])
  }

  /** The projection loses nothing: distinct entity lists give distinct DTO lists. */
  lemma {:induction false} ToDtoInjective(a: seq<ReportEntity>, b: seq<ReportEntity>)
    requires ToDto(a) == ToDto(b)
    ensures a == b
  {
    assert |a| == |b|;
    forall i | 0 <= i < |a| ensures a[i] == b[i] {
      assert ToDto(a)[i] == ToDto(b)[i];
    }
  }

  /** findByParams. `repository` is what the data source's `find` resolves to:
      None stands for null or undefined. */
  method FindByParams(q: Query, repository: Option<seq<ReportEntity>>) returns (r: Result<seq<ReportQueryDto>, NotFound>)
    ensures r.Failure? <==> repository.None?
    ensures r.Failure? ==> r.error == NotFound("Report not found")
    ensures repository.Some? ==> r == Success(ToDto(Find(repository.value, Conditions(q), Columns)))
    ensures repository.Some? && Find(repository.value, Conditions(q), Columns) == [] ==> r == Success([])
  {
    var where := BuildWhereConditions(q);
    var entities: Option<seq<ReportEntity>> := None;
    if repository.Some? {
      entities := Some(Find(repository.value, where, Columns));
    }
    if entities.None? {
      return Failure(NotFound("Report not found"));
    }
    r := Success(ToDto(entities.value));
  }

  /** A report whose columns satisfy the query's conditions has the query's
      values in its fields. */
  lemma EntityMatchesQuery(q: Query, e: ReportEntity)
    requires Satisfies(Columns(e), Conditions(q))
    ensures e.analysis == q.analysis && e.country == q.country && e.state == q.state
    ensures Truthy(q.period) ==> e.period == q.period.value
    ensures Truthy(q.source) ==> e.source == q.source.value
    ensures Truthy(q.city) ==> e.city == q.city.value
    ensures Truthy(q.labelName) ==> e.labelName == q.labelName.value
  {
    var cols := Columns(e);
    SatisfiesQuery(q, cols);
    assert cols["analysis"] == e.analysis && cols["country"] == e.country && cols["state"] == e.state;
    assert cols["period"] == e.period && cols["source"] == e.source;
    assert cols["city"] == e.city && cols["label"] == e.labelName;
  }

  /** Every DTO findByParams returns comes from a report that matches every
      condition of the query, and carries the requested values. */
  lemma {:induction false} ResultsSatisfyQuery(q: Query, rows: seq<ReportEntity>, i: nat)
    requires i < |Find(rows, Conditions(q), Columns)|
    ensures var e := Find(rows, Conditions(q), Columns)[i];
      var d := ToDto(Find(rows, Conditions(q), Columns))[i];
      e in rows && d.analysis == q.analysis && d.country == q.country && d.state == q.state
      && (Truthy(q.period) ==> d.period == q.period.value)
      && (Truthy(q.source) ==> d.source == q.source.value)
      && (Truthy(q.city) ==> d.city == q.city.value)
      && (Truthy(q.labelName) ==> d.labelName == q.labelName.value)
  {
    var found := Find(rows, Conditions(q), Columns);
    var e := found[i];
    assert e in found;
    EntityMatchesQuery(q, e);
    var d := ToDto(found)[i];
    assert d.analysis == e.analysis && d.country == e.country && d.state == e.state;
    assert d.period == e.period && d.source == e.source && d.city == e.city && d.labelName == e.labelName;
  }
}

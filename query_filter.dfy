/** The dynamic where-condition that ChartService.findByParams and
    ReportService.findByParams build, and the conjunctive equality match the
    repository's `find` applies with it. */
module QueryFilter {
  import opened Common

  /** The parameters of findByParams: three mandatory, four optional. */
  datatype Query = Query(
    analysis: string,
    country: string,
    state: string,
    period: Option<string>,
    source: Option<string>,
    city: Option<string>,
    labelName: Option<string>)  // the `label` parameter (`label` is a Dafny keyword)

  /** JavaScript truthiness of an optional string parameter: undefined and ""
      are falsy. */
  predicate Truthy(p: Option<string>) {
    p.Some? && p.value != ""
  }

  const FilterKeys: set<string> :=
    {"analysis", "country", "state", "period", "source", "city", "label"}

  /** The value a query pins column `key` to, if it constrains that column at all. */
  function Constraint(q: Query, key: string): Option<string> {
    if key == "analysis" then Some(q.analysis)
    else if key == "country" then Some(q.country)
    else if key == "state" then Some(q.state)
    else if key == "period" then (if Truthy(q.period) then q.period else None)
    else if key == "source" then (if Truthy(q.source) then q.source else None)
    else if key == "city" then (if Truthy(q.city) then q.city else None)
    else if key == "label" then (if Truthy(q.labelName) then q.labelName else None)
    else None
  }

  /** The where-conditions of a query, stated declaratively: one entry per
      filter key the query constrains. */
  function Conditions(q: Query): (w: map<string, string>)
    ensures "analysis" in w && w["analysis"] == q.analysis
    ensures "country" in w && w["country"] == q.country
    ensures "state" in w && w["state"] == q.state
    ensures ("period" in w <==> Truthy(q.period)) && ("period" in w ==> w["period"] == q.period.value)
    ensures ("source" in w <==> Truthy(q.source)) && ("source" in w ==> w["source"] == q.source.value)
    ensures ("city" in w <==> Truthy(q.city)) && ("city" in w ==> w["city"] == q.city.value)
    ensures ("label" in w <==> Truthy(q.labelName)) && ("label" in w ==> w["label"] == q.labelName.value)
    ensures forall k :: k in w ==> k in FilterKeys
  {
    ConditionsOn(q, FilterKeys)
  }

  /** The conditions a query sets among the filter keys `keys`. */
  function ConditionsOn(q: Query, keys: set<string>): map<string, string> {
    map k | k in keys && Constraint(q, k).Some? :: Constraint(q, k).value
  }

  /** Considering one more key adds its condition, if the query sets one. */
  lemma ConditionsOnAdd(q: Query, keys: set<string>, k: string)
    ensures ConditionsOn(q, keys + {k}) ==
      if Constraint(q, k).Some? then ConditionsOn(q, keys)[k := Constraint(q, k).value] else ConditionsOn(q, keys)
  {
  }

  /** The object literal holds the conditions on the mandatory keys. */
  lemma MandatoryConditions(q: Query)
    ensures ConditionsOn(q, {"analysis", "country", "state"})
      == map["analysis" := q.analysis, "country" := q.country, "state" := q.state]
  {
    ConditionsOnAdd(q, {}, "analysis");
    ConditionsOnAdd(q, {"analysis"}, "country");
    ConditionsOnAdd(q, {"analysis", "country"}, "state");
    assert {"analysis"} + {"country"} == {"analysis", "country"};
    assert {"analysis", "country"} + {"state"} == {"analysis", "country", "state"};
  }

  /** findByParams' construction of `whereConditions`: the object literal with
      the mandatory keys, then one guarded insertion per optional parameter. */
  method BuildWhereConditions(q: Query) returns (where: map<string, string>)
    ensures where == Conditions(q)
  {
    where := map["analysis" := q.analysis, "country" := q.country, "state" := q.state];
    ghost var keys: set<string> := {"analysis", "country", "state"};
    MandatoryConditions(q);
    if Truthy(q.period) {
      where := where["period" := q.period.value];
    }
    ConditionsOnAdd(q, keys, "period");
    keys := keys + {"period"};
    if Truthy(q.source) {
      where := where["source" := q.source.value];
    }
    ConditionsOnAdd(q, keys, "source");
    keys := keys + {"source"};
    if Truthy(q.city) {
      where := where["city" := q.city.value];
    }
    ConditionsOnAdd(q, keys, "city");
    keys := keys + {"city"};
    if Truthy(q.labelName) {
      where := where["label" := q.labelName.value];
    }
    ConditionsOnAdd(q, keys, "label");
    keys := keys + {"label"};
    assert keys == FilterKeys;
  }

  /** A row whose filterable columns are `columns` satisfies every equality in `where`. */
  predicate Satisfies(columns: map<string, string>, where: map<string, string>) {
    forall k :: k in where ==> k in columns && columns[k] == where[k]
  }

  /** Columns that satisfy a query's conditions hold the requested values. */
  lemma SatisfiesQuery(q: Query, cols: map<string, string>)
    requires Satisfies(cols, Conditions(q))
    ensures "analysis" in cols && cols["analysis"] == q.analysis
    ensures "country" in cols && cols["country"] == q.country
    ensures "state" in cols && cols["state"] == q.state
    ensures Truthy(q.period) ==> "period" in cols && cols["period"] == q.period.value
    ensures Truthy(q.source) ==> "source" in cols && cols["source"] == q.source.value
    ensures Truthy(q.city) ==> "city" in cols && cols["city"] == q.city.value
    ensures Truthy(q.labelName) ==> "label" in cols && cols["label"] == q.labelName.value
  {
    var w := Conditions(q);
    assert "analysis" in w && "country" in w && "state" in w;
  }

  /** The NotFoundException findByParams throws, with its message. */
  datatype NotFound = NotFound(message: string)

  /** `w2` keeps every constraint of `w` (and may add more). */
  predicate Extends(w2: map<string, string>, w: map<string, string>) {
    forall k :: k in w ==> k in w2 && w2[k] == w[k]
  }

  /** The repository's `find({ where })`: the rows that satisfy every condition,
      in table order. */
  function Find<E(==)>(rows: seq<E>, where: map<string, string>, columns: E -> map<string, string>): (r: seq<E>)
    ensures |r| <= |rows|
    ensures forall e :: e in r ==> e in rows && Satisfies(columns(e), where)
    ensures forall e :: e in rows && Satisfies(columns(e), where) ==> e in r
    ensures forall e :: e in rows ==>
      multiset(r)[e] == if Satisfies(columns(e), where) then multiset(rows)[e] else 0
  {
    if rows == [] then []
    else
      assert rows == [rows[0]] + rows[1..];
      if Satisfies(columns(rows[0]), where) then [rows[0]] + Find(rows[1..], where, columns)
    else Find(rows[1..], where, columns)
  }

  /** Adding constraints only narrows: searching with more conditions is the
      same as searching the result of the fewer conditions again. */
  lemma {:induction false} FindNarrows<E>(rows: seq<E>, w: map<string, string>, w2: map<string, string>, columns: E -> map<string, string>)
    requires Extends(w2, w)
    ensures Find(rows, w2, columns) == Find(Find(rows, w, columns), w2, columns)
  {
    if rows != [] {
      FindNarrows(rows[1..], w, w2, columns);
      if Satisfies(columns(rows[0]), w2) {
        assert Satisfies(columns(rows[0]), w);
      }
    }
  }

  /** `q2` asks for at least what `q` asks for: same mandatory parameters, and
      every optional parameter `q` sets is set the same way in `q2`. */
  predicate Narrower(q2: Query, q: Query) {
    q2.analysis == q.analysis && q2.country == q.country && q2.state == q.state
    && (Truthy(q.period) ==> q2.period == q.period)
    && (Truthy(q.source) ==> q2.source == q.source)
    && (Truthy(q.city) ==> q2.city == q.city)
    && (Truthy(q.labelName) ==> q2.labelName == q.labelName)
  }

  /** Giving findByParams one more optional filter never adds rows. */
  lemma {:induction false} MoreFiltersNarrow<E>(rows: seq<E>, q: Query, q2: Query, columns: E -> map<string, string>)
    requires Narrower(q2, q)
    ensures Find(rows, Conditions(q2), columns) == Find(Find(rows, Conditions(q), columns), Conditions(q2), columns)
    ensures |Find(rows, Conditions(q2), columns)| <= |Find(rows, Conditions(q), columns)|
    ensures forall e :: e in Find(rows, Conditions(q2), columns) ==> e in Find(rows, Conditions(q), columns)
  {
    var w, w2 := Conditions(q), Conditions(q2);
    forall k | k in w ensures k in w2 && w2[k] == w[k] {
      assert k in FilterKeys;
    }
    FindNarrows(rows, w, w2, columns);
  }
}

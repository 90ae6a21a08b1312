/** The deprecated listing query builder: a builder object configured once,
    whose find and justCount calls update its fields. Each method is proved
    to compute what the functions of module Dql say. */
module Builder {
  import opened Strings
  import opened Dql

  class ListQueryBuilder {
    // Construction parameters, never reassigned.
    const associationNames: seq<string>
    const fieldNames: seq<string>
    const entityName: string
    const fields: seq<string>
    const sorting: seq<(string, string)>
    const where: seq<(string, string)>
    const searchFields: seq<string>
    const searchTextFields: seq<string>
    const searchNumberFields: seq<string>
    const joinConditions: map<string, string>

    // State the methods update.
    var prefixes: seq<string>
    var joins: string
    var select: string
    var replaceSelect: string
    var countQuery: bool
    var relationalFilters: map<string, string>

    /** The search fields are the text fields followed by the numeric ones. */
    predicate Valid() {
      searchFields == searchTextFields + searchNumberFields
    }

    /** The construction parameters as one value. */
    function Settings(): Listing {
      Listing(associationNames, fieldNames, entityName, fields, sorting, where,
              searchTextFields, searchNumberFields, joinConditions)
    }

    /** The state that find carries from one call to the next. */
    function Carried(): Carry
      reads this
    {
      Carry(select, relationalFilters, countQuery, replaceSelect)
    }

    constructor (associationNames: seq<string>, fieldNames: seq<string>, entityName: string,
                 fields: seq<string>, sorting: seq<(string, string)>, where: seq<(string, string)>,
                 searchTextFields: seq<string> := [], searchNumberFields: seq<string> := [],
                 joinConditions: map<string, string> := map[])
      ensures Valid()
      ensures Settings() == Listing(associationNames, fieldNames, entityName, fields, sorting, where,
                                    searchTextFields, searchNumberFields, joinConditions)
      ensures Carried() == Fresh
      ensures prefixes == [] && joins == ""
    {
      this.associationNames := associationNames;
      this.fieldNames := fieldNames;
      this.entityName := entityName;
      this.fields := fields;
      this.sorting := sorting;
      this.where := where;
      this.searchFields := searchTextFields + searchNumberFields;
      this.searchTextFields := searchTextFields;
      this.searchNumberFields := searchNumberFields;
      this.joinConditions := joinConditions;
      prefixes := [];
      joins := "";
      select := "";
      replaceSelect := "";
      countQuery := false;
      relationalFilters := map[];
    }

    /** find: the query for the listing, with `prefix` as the root alias. */
    method Find(prefix: string := "u") returns (dql: string)
      requires Valid()
      modifies this
      ensures var o := Query(Settings(), prefix, old(Carried()));
              && dql == o.dql
              && joins == o.joins
              && prefixes == o.prefixes
              && Carried() == o.carry
    {
      var selectFromDQL := GetSelectFrom(prefix);
      var whereDQL := GetWhere(prefix);
      var orderDQL: string;
      if !countQuery {
        orderDQL := GetOrderBy(prefix);
      } else {
        orderDQL := "";
      }
      dql := selectFromDQL + " " + whereDQL + " " + orderDQL;
    }

    /** justCount: switch to count mode with the given count select. The
        default attribute is the literal `u.id`, whatever prefix find gets. */
    method JustCount(countAttribute: string := "u.id", alias: string := "totalcount")
      modifies this`countQuery, this`replaceSelect
      ensures countQuery && replaceSelect == CountSelect(countAttribute, alias)
    {
      countQuery := true;
      replaceSelect := "COUNT(" + countAttribute + ") as " + alias;
    }

    /** getSelectFrom: reset the joins and the joined aliases, resolve every
        candidate field, then settle the select and render SELECT ... FROM. */
    method GetSelectFrom(prefix: string) returns (dql: string)
      modifies this`joins, this`prefixes, this`select, this`relationalFilters
      ensures var p := ResolveAll(Settings(), prefix, old(Carried()));
              && joins == RenderJoins(joinConditions, p.joins)
              && prefixes == p.prefixes
              && select == FinalSelect(prefix, p.select, old(Carried()))
              && relationalFilters == p.filters
              && dql == SelectFromClause(entityName, prefix, select, joins)
    {
      joins := "";
      prefixes := [prefix];
      var fieldsWhere := fields + Keys(where);
      fieldsWhere := fieldsWhere + searchTextFields + searchNumberFields;
      ghost var start := Pass([], [prefix], select, relationalFilters);
      var i := 0;
      while i < |fieldsWhere|
        invariant i <= |fieldsWhere|
        invariant var p := Resolve(Settings(), prefix, start, fieldsWhere[..i]);
                  && joins == RenderJoins(joinConditions, p.joins)
                  && prefixes == p.prefixes
                  && select == p.select
                  && relationalFilters == p.filters
      {
        ResolveStep(Settings(), prefix, start, fieldsWhere, i);
        PerformSelectFromField(fieldsWhere[i], prefix);
        i := i + 1;
        // the pass the invariant now speaks of
        assert prefixes == Resolve(Settings(), prefix, start, fieldsWhere[..i]).prefixes;
      }
      assert fieldsWhere[..i] == fieldsWhere;
      if countQuery {
        select := replaceSelect;
      } else if |select| == 0 {
        select := prefix;
      }
      dql := "SELECT " + select + LineBreak + "FROM " + entityName + " " + prefix + JoinsBreak + joins;
    }

    /** performSelectFromField: the joins and the select fragment of one
        field token, and its index annotation. */
    method PerformSelectFromField(field: string, prefix: string)
      modifies this`joins, this`prefixes, this`select, this`relationalFilters
      ensures var p := PerformSelect(Settings(), prefix, Pass([], old(prefixes), old(select), old(relationalFilters)), field);
              && joins == old(joins) + RenderJoins(joinConditions, p.joins)
              && prefixes == p.prefixes
              && select == p.select
              && relationalFilters == p.filters
    {
      ghost var st := Pass([], prefixes, select, relationalFilters);
      var fieldParts, realFieldName, index := ParseField(field);
      ghost var t := Token(fieldParts, realFieldName, index);
      if index.Some? {
        relationalFilters := relationalFilters[realFieldName := index.value];
      }
      assert relationalFilters == RecordIndex(st.filters, t);
      PerformTokenFilters(Settings(), prefix, st, field, t);
      SelectToken(field, prefix, fieldParts, realFieldName, t, st.filters);
    }

    /** The rest of performSelectFromField, once `field` is parsed into `t`:
        join the segments of a relation path and select its last two, or
        select a plain field of the entity. `filters` only names the
        relational filters of the pass, which this part leaves alone. */
    method SelectToken(field: string, prefix: string, fieldParts: seq<string>, realFieldName: string,
                       ghost t: Token, ghost filters: map<string, string>)
      requires t.parts == fieldParts && t.realName == realFieldName && |fieldParts| >= 1
      modifies this`joins, this`prefixes, this`select
      ensures var p := PerformToken(Settings(), prefix, Pass([], old(prefixes), old(select), filters), field, t);
              && joins == old(joins) + RenderJoins(joinConditions, p.joins)
              && prefixes == p.prefixes
              && select == p.select
    {
      ghost var st := Pass([], prefixes, select, filters);
      ghost var p := PerformToken(Settings(), prefix, st, field, t);
      if |fieldParts| >= 2 && IsRelation(associationNames, fieldParts[0]) {
        var js := GenerateJoins(fieldParts, prefix);
        joins := joins + js;
        if field in fields {
          var i := |fieldParts| - 1;
          var parent := fieldParts[i - 1];
          var tempField := fieldParts[i];
          var alias := realFieldName;
          assert parent == fieldParts[|fieldParts| - 2] && tempField == fieldParts[|fieldParts| - 1];
          AddToSelect(parent, tempField, alias);
        }
        assert p.joins == NewJoins(fieldParts, prefix, st.prefixes) by {
          assert [] + NewJoins(fieldParts, prefix, st.prefixes) == NewJoins(fieldParts, prefix, st.prefixes);
        }
      } else if field in fields && field in fieldNames {
        AddToSelect(prefix, field);
      }
    }

    /** The first lines of performSelectFromField: split the field on `_`
        and strip a `[digits]` suffix from the first segment. */
    static method ParseField(field: string) returns (fieldParts: seq<string>, realFieldName: string, index: Option<string>)
      ensures Token(fieldParts, realFieldName, index) == ParseToken(field)
    {
      fieldParts := Split(field, '_');
      realFieldName := field;
      index := None;
      var m := ParseIndexed(fieldParts[0]);
      if m.Some? {
        fieldParts := fieldParts[0 := m.value.name];
        realFieldName := Implode("_", fieldParts);
        index := Some(m.value.index);
      }
      ParseTokenSteps(field);
    }

    /** addToSelect: append `prefix.field alias`, after a comma unless the
        select is empty. */
    method AddToSelect(prefix: string, field: string, alias: string := "")
      modifies this`select
      ensures select == AppendSelect(old(select), prefix, field, alias)
    {
      if |select| > 0 {
        select := select + ", ";
      }
      select := select + GenerateSelect(prefix, field, alias);
    }

    /** generateJoins: one LEFT JOIN per segment but the last, skipping
        segments already joined, and record each joined alias. */
    method GenerateJoins(fieldParts: seq<string>, prefix: string) returns (result: string)
      modifies this`prefixes
      ensures var js := NewJoins(fieldParts, prefix, old(prefixes));
              && result == RenderJoins(joinConditions, js)
              && prefixes == old(prefixes) + Aliases(js)
    {
      var i := 0;
      result := "";
      while i <= |fieldParts| - 2
        invariant 0 <= i <= JoinSteps(fieldParts)
        invariant var js := JoinsUpTo(fieldParts, prefix, old(prefixes), i);
                  && result == RenderJoins(joinConditions, js)
                  && prefixes == old(prefixes) + Aliases(js)
      {
        ghost var js := JoinsUpTo(fieldParts, prefix, old(prefixes), i);
        JoinsUpToStep(fieldParts, prefix, old(prefixes), i);
        if fieldParts[i] !in prefixes {
          var parent := if i == 0 then prefix else fieldParts[i - 1];
          assert parent == JoinParent(fieldParts, prefix, i);
          var join := GenerateJoin(joinConditions, parent, fieldParts[i], fieldParts[i]);
          ghost var j := Join(parent, fieldParts[i], fieldParts[i]);
          RenderJoinsSnoc(joinConditions, js, j);
          AliasesSnoc(js, j);
          AppendAssoc(old(prefixes), Aliases(js), [fieldParts[i]]);
          result := result + join;
          prefixes := prefixes + [fieldParts[i]];
        }
        i := i + 1;
      }
    }

    /** getWhere: the WHERE clause for the where map and the search fields. */
    method GetWhere(prefix: string) returns (result: string)
      requires Valid()
      ensures result == WhereClause(prefix, where, searchTextFields, searchFields)
    {
      result := "";
      if |where| > 0 || |searchFields| > 0 {
        var wheres: seq<string> := [];
        var searches: seq<string> := [];
        var whereKeys := Keys(where);
        var keys := Dedup(whereKeys + searchFields);
        for k := 0 to |keys|
          invariant wheres == EqualitiesOf(prefix, where, keys[..k])
          invariant searches == SearchesOf(prefix, searchTextFields, searchFields, keys[..k])
        {
          var key := keys[k];
          assert keys[..k + 1] == keys[..k] + [key];
          PredicatesSnoc(prefix, where, searchTextFields, searchFields, keys[..k], key);
          var parts := Split(key, '_');
          var prefixActual := prefix;
          var col: string;
          if |parts| == 1 {
            col := parts[0];
          } else {
            var n := |parts|;
            prefixActual := parts[n - 2];
            col := parts[n - 1];
          }
          assert prefixActual + "." + col == Column(prefix, key);
          if key in whereKeys {
            wheres := wheres + [prefixActual + "." + col + " = " + Lookup(where, key)];
          }
          assert wheres == EqualitiesOf(prefix, where, keys[..k + 1]);
          if key in searchFields {
            var comparator := "=";
            var search := ":strictSearch";
            if key in searchTextFields {
              comparator := "LIKE";
              search := ":search";
            }
            assert comparator == Comparator(key, searchTextFields) && search == Placeholder(key, searchTextFields);
            searches := searches + [prefixActual + "." + col + " " + comparator + " " + search];
          }
          assert searches == SearchesOf(prefix, searchTextFields, searchFields, keys[..k + 1]);
        }
        assert keys[..|keys|] == keys;
        if |wheres| > 0 {
          result := result + Implode(" AND ", wheres);
          assert result == Implode(" AND ", wheres);
        }
        ghost var equalities := result;
        assert equalities == if |wheres| > 0 then Implode(" AND ", wheres) else "";
        if |searches| > 0 {
          if result != "" {
            result := result + " AND ";
          }
          assert result == if equalities != "" then equalities + " AND " else equalities;
          result := result + "(" + Implode(" OR ", searches) + ")";
        }
        assert result == CombinePredicates(wheres, searches);
        result := "WHERE " + result;
      }
    }

    /** getOrderBy: the ORDER BY clause, entries in the sort map's order. */
    method GetOrderBy(prefix: string) returns (result: string)
      ensures result == OrderBy(prefix, sorting)
    {
      result := "";
      if |sorting| > 0 {
        var orderBy := "";
        for i := 0 to |sorting|
          invariant orderBy == Implode(", ", OrderEntries(prefix, sorting[..i]))
          invariant |orderBy| > 0 <==> i > 0
        {
          ghost var done := OrderEntries(prefix, sorting[..i]);
          var entry := prefix + "." + sorting[i].0 + " " + sorting[i].1;
          assert entry == OrderEntry(prefix, sorting[i]) && |entry| > 0;
          assert sorting[..i + 1][..i] == sorting[..i];
          assert OrderEntries(prefix, sorting[..i + 1]) == done + [entry];
          if |orderBy| > 0 {
            ImplodeSnoc(", ", done, entry);
            orderBy := orderBy + ", ";
          } else {
            assert done == [];
          }
          orderBy := orderBy + entry;
        }
        assert sorting[..|sorting|] == sorting;
        result := result + LineBreak + "ORDER BY " + orderBy;
      }
    }

    /** getRelationalFilters: the index annotations recorded so far. */
    method GetRelationalFilters() returns (filters: map<string, string>)
      ensures filters == relationalFilters
    {
      filters := relationalFilters;
    }
  }
}

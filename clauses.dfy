/** The WHERE and ORDER BY clauses of find: which predicates the WHERE
    clause holds, in which order, with which column and comparator, how they
    are combined, and the order of the ORDER BY items. */
module Clauses {
  import opened Strings
  import opened Dql

  // ---------------------------------------------------------------------
  // Columns
  // ---------------------------------------------------------------------

  /** A key without `_` is a column of the root entity. */
  lemma ColumnOfPlainKey(prefix: string, key: string)
    requires '_' !in key
    ensures Column(prefix, key) == prefix + "." + key
  {
    SplitNoSep(key, '_');
  }

  /** A key of two or more segments names the column of its last segment
      on the alias of its second-to-last segment. */
  lemma ColumnOfPath(prefix: string, parts: seq<string>)
    requires |parts| >= 2
    requires forall i :: 0 <= i < |parts| ==> '_' !in parts[i]
    ensures Column(prefix, Implode("_", parts)) == parts[|parts| - 2] + "." + parts[|parts| - 1]
  {
    SplitImplode(parts, '_');
  }

  // ---------------------------------------------------------------------
  // The predicates of the WHERE clause
  // ---------------------------------------------------------------------

  /** Visiting `keys`, getWhere emits one equality per key that is a where
      key, in the order of `keys`, comparing its column with its value. */
  lemma {:induction false} EqualitiesOfKept(prefix: string, where: seq<(string, string)>, keys: seq<string>)
    ensures |EqualitiesOf(prefix, where, keys)| == |KeepIn(keys, Keys(where))|
    ensures forall i :: 0 <= i < |KeepIn(keys, Keys(where))| ==>
              KeepIn(keys, Keys(where))[i] in Keys(where) &&
              EqualitiesOf(prefix, where, keys)[i]
                == Column(prefix, KeepIn(keys, Keys(where))[i]) + " = " + Lookup(where, KeepIn(keys, Keys(where))[i])
    decreases |keys|
  {
    if |keys| > 0 {
      var init := keys[..|keys| - 1];
      EqualitiesOfKept(prefix, where, init);
      var k := KeepIn(keys, Keys(where));
      forall i | 0 <= i < |k|
        ensures k[i] in Keys(where)
      {
        assert k[i] in k;
      }
    }
  }

  /** A search predicate compares the key's column with `LIKE :search` for
      a text field and with `= :strictSearch` for any other. */
  lemma SearchPredicateShape(prefix: string, key: string, textFields: seq<string>)
    ensures SearchPredicate(prefix, key, textFields)
              == Column(prefix, key) + (if key in textFields then " LIKE :search" else " = :strictSearch")
  {
    var col := Column(prefix, key);
    var cmp := Comparator(key, textFields);
    var ph := Placeholder(key, textFields);
    AppendAssoc(col, " ", cmp);
    AppendAssoc(col, " " + cmp, " ");
    AppendAssoc(col, " " + cmp + " ", ph);
  }

  /** Visiting `keys`, getWhere emits one search predicate per key that is
      a search field, in the order of `keys`. */
  lemma {:induction false} SearchesOfKept(prefix: string, textFields: seq<string>, searchFields: seq<string>,
                                          keys: seq<string>)
    ensures |SearchesOf(prefix, textFields, searchFields, keys)| == |KeepIn(keys, searchFields)|
    ensures forall i :: 0 <= i < |KeepIn(keys, searchFields)| ==>
              SearchesOf(prefix, textFields, searchFields, keys)[i]
                == SearchPredicate(prefix, KeepIn(keys, searchFields)[i], textFields)
    decreases |keys|
  {
    if |keys| > 0 {
      SearchesOfKept(prefix, textFields, searchFields, keys[..|keys| - 1]);
    }
  }

  /** The equalities of the WHERE clause: one per distinct where key, in
      the where map's order, whatever the search fields. */
  lemma WhereEqualities(prefix: string, where: seq<(string, string)>, searchFields: seq<string>)
    ensures |EqualitiesOf(prefix, where, WhereFields(where, searchFields))| == |Dedup(Keys(where))|
    ensures forall i :: 0 <= i < |Dedup(Keys(where))| ==>
              Dedup(Keys(where))[i] in Keys(where) &&
              EqualitiesOf(prefix, where, WhereFields(where, searchFields))[i]
                == Column(prefix, Dedup(Keys(where))[i]) + " = " + Lookup(where, Dedup(Keys(where))[i])
  {
    EqualitiesOfKept(prefix, where, WhereFields(where, searchFields));
    DedupKeepPrefix(Keys(where), searchFields);
  }

  /** The keys of the search predicates, in the order getWhere visits them. */
  function SearchedKeys(where: seq<(string, string)>, searchFields: seq<string>): seq<string> {
    KeepIn(WhereFields(where, searchFields), searchFields)
  }

  /** Every search field is searched exactly once, also when it is a where
      key as well or is listed twice. */
  lemma SearchedOnce(where: seq<(string, string)>, searchFields: seq<string>)
    ensures forall x :: x in SearchedKeys(where, searchFields) <==> x in searchFields
    ensures NoDup(SearchedKeys(where, searchFields))
  {
    KeepInNoDup(WhereFields(where, searchFields), searchFields);
  }

  // ---------------------------------------------------------------------
  // How the WHERE clause combines them
  // ---------------------------------------------------------------------

  /** The search group: the search predicates joined by OR inside one pair
      of parentheses, or nothing when there are none. */
  function SearchGroup(searches: seq<string>): seq<string> {
    if |searches| > 0 then ["(" + Implode(" OR ", searches) + ")"] else []
  }

  /** The conjuncts of the WHERE clause: the equalities, then the search group. */
  function Conjuncts(prefix: string, where: seq<(string, string)>, textFields: seq<string>,
                     searchFields: seq<string>): seq<string> {
    var keys := WhereFields(where, searchFields);
    EqualitiesOf(prefix, where, keys) + SearchGroup(SearchesOf(prefix, textFields, searchFields, keys))
  }

  /** An imploded list whose last piece is not empty is not empty. */
  lemma ImplodeNonEmpty(sep: string, pieces: seq<string>)
    requires |pieces| > 0 && pieces[|pieces| - 1] != ""
    ensures Implode(sep, pieces) != ""
  {
  }

  /** getWhere's combination step: the equalities joined with AND, then
      the search group, after ` AND ` when the equalities gave any text,
      is the conjunction of the equalities and the search group. */
  lemma CombineConjuncts(wheres: seq<string>, searches: seq<string>)
    requires |wheres| > 0 ==> Implode(" AND ", wheres) != ""
    ensures CombinePredicates(wheres, searches) == Implode(" AND ", wheres + SearchGroup(searches))
  {
    var group := SearchGroup(searches);
    if |searches| > 0 {
      var g := "(" + Implode(" OR ", searches) + ")";
      assert group == [g];
      if |wheres| > 0 {
        ImplodeSnoc(" AND ", wheres, g);
        var x := Implode(" AND ", wheres) + " AND ";
        var o := Implode(" OR ", searches);
        AppendAssoc(x, "(", o);
        AppendAssoc(x, "(" + o, ")");
        assert CombinePredicates(wheres, searches) == x + "(" + o + ")";
      } else {
        OnlySearches(wheres, searches);
      }
    } else {
      assert wheres + group == wheres;
    }
  }

  /** Without equalities the combination is the search group alone. */
  lemma OnlySearches(wheres: seq<string>, searches: seq<string>)
    requires wheres == [] && |searches| > 0
    ensures CombinePredicates(wheres, searches) == Implode(" AND ", wheres + SearchGroup(searches))
  {
    var g := "(" + Implode(" OR ", searches) + ")";
    assert wheres + SearchGroup(searches) == [g];
    var r := if |wheres| > 0 then Implode(" AND ", wheres) else "";
    assert r == "";
    assert (if r != "" then r + " AND " else r) == "";
  }

  /** A where entry gives at least one equality, whose text is not empty;
      a search field gives at least one search predicate. */
  lemma WherePartsNonEmpty(prefix: string, where: seq<(string, string)>, textFields: seq<string>, searchFields: seq<string>)
    ensures |where| > 0 ==> |EqualitiesOf(prefix, where, WhereFields(where, searchFields))| > 0
    ensures |EqualitiesOf(prefix, where, WhereFields(where, searchFields))| > 0 ==>
              Implode(" AND ", EqualitiesOf(prefix, where, WhereFields(where, searchFields))) != ""
    ensures |searchFields| > 0 ==> |SearchesOf(prefix, textFields, searchFields, WhereFields(where, searchFields))| > 0
  {
    var keys := WhereFields(where, searchFields);
    var wheres := EqualitiesOf(prefix, where, keys);
    WhereEqualities(prefix, where, searchFields);
    if |where| > 0 {
      assert where[0].0 in Keys(where);
      assert where[0].0 in Dedup(Keys(where));
    }
    if |wheres| > 0 {
      var n := |wheres| - 1;
      assert |wheres[n]| >= 3;
      ImplodeNonEmpty(" AND ", wheres);
    }
    if |searchFields| > 0 {
      SearchesOfKept(prefix, textFields, searchFields, keys);
      SearchedOnce(where, searchFields);
      assert searchFields[0] in SearchedKeys(where, searchFields);
    }
  }

  /** getWhere's result is empty exactly when there is neither a where
      entry nor a search field; otherwise it is `WHERE ` followed by the
      conjuncts joined with AND, and there is at least one of them. */
  lemma WhereShape(prefix: string, where: seq<(string, string)>, textFields: seq<string>, searchFields: seq<string>)
    ensures WhereClause(prefix, where, textFields, searchFields) == "" <==> |where| == 0 && |searchFields| == 0
    ensures (|where| > 0 || |searchFields| > 0) ==>
              && |Conjuncts(prefix, where, textFields, searchFields)| > 0
              && WhereClause(prefix, where, textFields, searchFields)
                   == "WHERE " + Implode(" AND ", Conjuncts(prefix, where, textFields, searchFields))
  {
    if |where| > 0 || |searchFields| > 0 {
      var keys := WhereFields(where, searchFields);
      WherePartsNonEmpty(prefix, where, textFields, searchFields);
      CombineConjuncts(EqualitiesOf(prefix, where, keys), SearchesOf(prefix, textFields, searchFields, keys));
    }
  }

  // ---------------------------------------------------------------------
  // ORDER BY
  // ---------------------------------------------------------------------

  /** There is an ORDER BY clause exactly when there is a sort entry; it
      lists `prefix.column direction` for each, in the sort map's order. */
  lemma OrderByShape(prefix: string, sorting: seq<(string, string)>)
    ensures OrderBy(prefix, sorting) == "" <==> |sorting| == 0
    ensures forall i :: 0 <= i < |sorting| ==>
              OrderEntries(prefix, sorting)[i] == prefix + "." + sorting[i].0 + " " + sorting[i].1
  {
  }

  /** Two sort entries, in their given order. */
  lemma OrderByExample()
    ensures OrderBy("u", [("lastName", "ASC"), ("id", "DESC")]) == LineBreak + "ORDER BY u.lastName ASC, u.id DESC"
  {
    var sorting := [("lastName", "ASC"), ("id", "DESC")];
    var entries := OrderEntries("u", sorting);
    assert entries[0] == "u" + "." + "lastName" + " " + "ASC" == "u.lastName ASC";
    assert entries[1] == "u" + "." + "id" + " " + "DESC" == "u.id DESC";
    assert entries == ["u.lastName ASC", "u.id DESC"];
    assert Implode(", ", entries) == "u.lastName ASC" + ", " + "u.id DESC";
  }
}

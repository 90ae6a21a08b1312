/** The DQL text ListQueryBuilder produces, as functions of its construction
    parameters and of the state it carries from one call to the next. The
    class in module Builder is proved to compute exactly these values. */
module Dql {
  import opened Strings

  /** Line break and indentation the source's templates put before FROM,
      before each LEFT JOIN and before ORDER BY. */
  const LineBreak: string := "\n                "

  /** Line break and indentation the select template puts before the joins. */
  const JoinsBreak: string := "\n                  "

  /** The construction parameters of a builder. The PHP arrays `sorting` and
      `where` are ordered maps; they are kept as key/value lists in their
      iteration order. */
  datatype Listing = Listing(
    associationNames: seq<string>,
    fieldNames: seq<string>,
    entityName: string,
    fields: seq<string>,
    sorting: seq<(string, string)>,
    where: seq<(string, string)>,
    searchTextFields: seq<string>,
    searchNumberFields: seq<string>,
    joinConditions: map<string, string>)
  {
    /** array_merge of the text and the numeric search fields. */
    function SearchFields(): seq<string> {
      searchTextFields + searchNumberFields
    }
  }

  /** array_keys of an ordered map. */
  function Keys(entries: seq<(string, string)>): (ks: seq<string>)
    ensures |ks| == |entries|
    ensures forall i :: 0 <= i < |entries| ==> ks[i] == entries[i].0
  {
    seq(|entries|, i requires 0 <= i < |entries| => entries[i].0)
  }

  /** `$map[$key]`: the value stored under `key`. */
  function Lookup(entries: seq<(string, string)>, key: string): (v: string)
    requires key in Keys(entries)
    ensures exists i :: 0 <= i < |entries| && entries[i] == (key, v)
  {
    if entries[0].0 == key then entries[0].1
    else
      assert Keys(entries) == [entries[0].0] + Keys(entries[1..]);
      var v := Lookup(entries[1..], key);
      assert exists i :: 0 <= i < |entries| - 1 && entries[1..][i] == (key, v);
      v
  }

  // ---------------------------------------------------------------------
  // Select fragments
  // ---------------------------------------------------------------------

  /** generateSelect: `{prefix}.{field} {alias}`. */
  function GenerateSelect(prefix: string, field: string, alias: string): string {
    prefix + "." + field + " " + alias
  }

  /** The select text after addToSelect appends a fragment: a comma before the fragment unless
      the select is still empty. */
  function AppendSelect(select: string, prefix: string, field: string, alias: string): string {
    (if |select| > 0 then select + ", " else select) + GenerateSelect(prefix, field, alias)
  }

  // ---------------------------------------------------------------------
  // Joins
  // ---------------------------------------------------------------------

  /** One `LEFT JOIN parent.association alias` the builder emits. */
  datatype Join = Join(parent: string, association: string, alias: string)

  /** isRelation: the segment names an association of the root entity. */
  predicate IsRelation(associationNames: seq<string>, field: string) {
    field in associationNames
  }

  /** generateJoinCondition: ` WITH cond` when a custom condition is
      configured for the association, nothing otherwise. */
  function GenerateJoinCondition(joinConditions: map<string, string>, field: string): (r: string)
    ensures field in joinConditions <==> r != []
    ensures field in joinConditions ==> |r| >= 6 && r[..6] == " WITH " && r[6..] == joinConditions[field]
  {
    if field !in joinConditions then "" else " WITH " + joinConditions[field]
  }

  /** generateJoin, with the leading line break of its template. */
  function GenerateJoin(joinConditions: map<string, string>, parent: string, field: string, alias: string): string {
    LineBreak + "LEFT JOIN " + parent + "." + field + " " + alias + " "
      + GenerateJoinCondition(joinConditions, field)
  }

  /** The join text for a list of joins, in order. */
  function RenderJoins(joinConditions: map<string, string>, js: seq<Join>): string {
    if |js| == 0 then ""
    else
      var j := js[|js| - 1];
      RenderJoins(joinConditions, js[..|js| - 1]) + GenerateJoin(joinConditions, j.parent, j.association, j.alias)
  }

  /** The aliases a list of joins introduces, in order. */
  function Aliases(js: seq<Join>): (as_: seq<string>)
    ensures |as_| == |js|
    ensures forall k :: 0 <= k < |js| ==> as_[k] == js[k].alias
  {
    seq(|js|, k requires 0 <= k < |js| => js[k].alias)
  }

  /** The parent of the join for segment i: the root alias for the first
      segment, the previous segment otherwise. */
  function JoinParent(parts: seq<string>, prefix: string, i: nat): string
    requires i < |parts|
  {
    if i == 0 then prefix else parts[i - 1]
  }

  /** The joins generateJoins emits while it visits segments 0 .. n-1, when
      the aliases in `known` are already joined: segment i is joined, under
      its own name, unless its name is already a known or joined alias. */
  function JoinsUpTo(parts: seq<string>, prefix: string, known: seq<string>, n: nat): seq<Join>
    requires n <= |parts|
  {
    if n == 0 then []
    else
      var prev := JoinsUpTo(parts, prefix, known, n - 1);
      if parts[n - 1] in known + Aliases(prev) then prev
      else prev + [Join(JoinParent(parts, prefix, n - 1), parts[n - 1], parts[n - 1])]
  }

  /** One more segment visited: its join is appended unless its name is
      already joined. */
  lemma JoinsUpToStep(parts: seq<string>, prefix: string, known: seq<string>, n: nat)
    requires n < |parts|
    ensures var prev := JoinsUpTo(parts, prefix, known, n);
            JoinsUpTo(parts, prefix, known, n + 1)
              == if parts[n] in known + Aliases(prev) then prev
                 else prev + [Join(JoinParent(parts, prefix, n), parts[n], parts[n])]
  {
  }

  lemma RenderJoinsSnoc(joinConditions: map<string, string>, js: seq<Join>, j: Join)
    ensures RenderJoins(joinConditions, js + [j])
              == RenderJoins(joinConditions, js) + GenerateJoin(joinConditions, j.parent, j.association, j.alias)
  {
    assert (js + [j])[..|js|] == js;
  }

  lemma AliasesSnoc(js: seq<Join>, j: Join)
    ensures Aliases(js + [j]) == Aliases(js) + [j.alias]
  {
  }

  /** Every join emitted is the join of some visited segment: parent from
      JoinParent, the segment as association and as alias. */
  lemma {:induction false} JoinsUpToShape(parts: seq<string>, prefix: string, known: seq<string>, n: nat)
    requires n <= |parts|
    ensures var js := JoinsUpTo(parts, prefix, known, n);
            forall k :: 0 <= k < |js| ==>
              exists i: nat :: i < n && js[k] == Join(JoinParent(parts, prefix, i), parts[i], parts[i])
  {
    if n > 0 {
      var prev := JoinsUpTo(parts, prefix, known, n - 1);
      JoinsUpToShape(parts, prefix, known, n - 1);
      var js := JoinsUpTo(parts, prefix, known, n);
      forall k | 0 <= k < |js|
        ensures exists i: nat :: i < n && js[k] == Join(JoinParent(parts, prefix, i), parts[i], parts[i])
      {
        if k < |prev| {
          assert js[k] == prev[k];
          assert k < |JoinsUpTo(parts, prefix, known, n - 1)|;
          var i: nat :| i < n - 1 && prev[k] == Join(JoinParent(parts, prefix, i), parts[i], parts[i]);
        } else {
          assert js[k] == Join(JoinParent(parts, prefix, n - 1), parts[n - 1], parts[n - 1]);
        }
      }
    }
  }

  /** Every visited segment ends up joined (or was known before). */
  lemma {:induction false} JoinsUpToCover(parts: seq<string>, prefix: string, known: seq<string>, n: nat)
    requires n <= |parts|
    ensures forall i :: 0 <= i < n ==> parts[i] in known + Aliases(JoinsUpTo(parts, prefix, known, n))
  {
    if n > 0 {
      var prev := JoinsUpTo(parts, prefix, known, n - 1);
      JoinsUpToCover(parts, prefix, known, n - 1);
      var js := JoinsUpTo(parts, prefix, known, n);
      if parts[n - 1] !in known + Aliases(prev) {
        assert Aliases(js) == Aliases(prev) + [parts[n - 1]];
      }
    }
  }

  /** No alias is joined twice, nor one that was known before. */
  lemma {:induction false} JoinsUpToOnce(parts: seq<string>, prefix: string, known: seq<string>, n: nat)
    requires n <= |parts|
    requires NoDup(known)
    ensures NoDup(known + Aliases(JoinsUpTo(parts, prefix, known, n)))
  {
    if n > 0 {
      var prev := JoinsUpTo(parts, prefix, known, n - 1);
      JoinsUpToOnce(parts, prefix, known, n - 1);
      var js := JoinsUpTo(parts, prefix, known, n);
      if parts[n - 1] !in known + Aliases(prev) {
        assert known + Aliases(js) == (known + Aliases(prev)) + [parts[n - 1]];
      }
    }
  }

  /** How many segments generateJoins visits: all but the last. */
  function JoinSteps(parts: seq<string>): nat {
    if |parts| >= 1 then |parts| - 1 else 0
  }

  /** The joins one call of generateJoins emits. */
  function NewJoins(parts: seq<string>, prefix: string, known: seq<string>): seq<Join> {
    JoinsUpTo(parts, prefix, known, JoinSteps(parts))
  }

  // ---------------------------------------------------------------------
  // Field tokens
  // ---------------------------------------------------------------------

  /** A field token after explode('_') and the index check on its first
      segment: its segments, the name used as select alias and as filter
      key, and the recorded index, if any. */
  datatype Token = Token(parts: seq<string>, realName: string, index: Option<string>)

  /** performSelectFromField's first lines: split on `_`, and strip a
      `[digits]` suffix from the FIRST segment. */
  function ParseToken(field: string): (t: Token)
    ensures |t.parts| == |Split(field, '_')| >= 1
    ensures t.parts[1..] == Split(field, '_')[1..]
    ensures t.realName == Implode("_", t.parts)
    ensures t.index.None? ==> t.parts == Split(field, '_') && t.realName == field
    ensures t.index.Some? ==> IndexedForm(Split(field, '_')[0], t.parts[0], t.index.value)
  {
    var parts := Split(field, '_');
    ImplodeSplit(field, '_');
    match ParseIndexed(parts[0])
    case None => Token(parts, field, None)
    case Some(ix) =>
      ParseIndexedSound(parts[0]);
      var stripped := parts[0 := ix.name];
      Token(stripped, Implode("_", stripped), Some(ix.index))
  }

  /** ParseToken, step by step as performSelectFromField computes it. */
  lemma ParseTokenSteps(field: string)
    ensures var parts := Split(field, '_');
            var m := ParseIndexed(parts[0]);
            ParseToken(field) == if m.Some? then Token(parts[0 := m.value.name], Implode("_", parts[0 := m.value.name]), Some(m.value.index))
                                 else Token(parts, field, None)
  {
  }

  predicate IsRelationPath(associationNames: seq<string>, t: Token) {
    |t.parts| >= 2 && IsRelation(associationNames, t.parts[0])
  }

  // ---------------------------------------------------------------------
  // Resolving the candidate fields (getSelectFrom)
  // ---------------------------------------------------------------------

  /** The state one getSelectFrom pass works on: the joins emitted so far in
      this pass, the aliases already joined, the select text and the
      relational filters. */
  datatype Pass = Pass(joins: seq<Join>, prefixes: seq<string>, select: string, filters: map<string, string>)

  /** performSelectFromField applied to one candidate field. */
  function PerformSelect(s: Listing, prefix: string, st: Pass, field: string): Pass {
    PerformToken(s, prefix, st, field, ParseToken(field))
  }

  /** performSelectFromField once the field `field` is parsed into `t`:
      record the index, then join a relation path and select its last two
      segments, or select a plain field of the entity. */
  function PerformToken(s: Listing, prefix: string, st: Pass, field: string, t: Token): Pass
    requires |t.parts| >= 1
  {
    var filters := RecordIndex(st.filters, t);
    if IsRelationPath(s.associationNames, t) then
      var js := NewJoins(t.parts, prefix, st.prefixes);
      var n := |t.parts|;
      var select := if field in s.fields then AppendSelect(st.select, t.parts[n - 2], t.parts[n - 1], t.realName)
                    else st.select;
      Pass(st.joins + js, st.prefixes + Aliases(js), select, filters)
    else if field in s.fields && field in s.fieldNames then
      Pass(st.joins, st.prefixes, AppendSelect(st.select, prefix, field, ""), filters)
    else
      Pass(st.joins, st.prefixes, st.select, filters)
  }

  /** The relational filters after a token: its index, if any, recorded
      under its real name. */
  function RecordIndex(filters: map<string, string>, t: Token): map<string, string> {
    if t.index.Some? then filters[t.realName := t.index.value] else filters
  }

  /** Whatever the token, the pass records its index and nothing else in
      the relational filters. */
  lemma PerformTokenFilters(s: Listing, prefix: string, st: Pass, field: string, t: Token)
    requires |t.parts| >= 1
    ensures PerformToken(s, prefix, st, field, t).filters == RecordIndex(st.filters, t)
  {
  }

  /** PerformSelect on a relation path, component by component. */
  lemma PerformSelectJoined(s: Listing, prefix: string, st: Pass, field: string, t: Token)
    requires t == ParseToken(field)
    requires IsRelationPath(s.associationNames, t)
    ensures var p := PerformSelect(s, prefix, st, field);
            var js := NewJoins(t.parts, prefix, st.prefixes);
            && p.joins == st.joins + js
            && (st.joins == [] ==> p.joins == js)
            && p.prefixes == st.prefixes + Aliases(js)
            && p.select == (if field in s.fields then AppendSelect(st.select, t.parts[|t.parts| - 2], t.parts[|t.parts| - 1], t.realName)
                            else st.select)
            && p.filters == RecordIndex(st.filters, t)
  {
  }

  /** PerformSelect on anything else, component by component. */
  lemma PerformSelectPlain(s: Listing, prefix: string, st: Pass, field: string, t: Token)
    requires t == ParseToken(field)
    requires !IsRelationPath(s.associationNames, t)
    ensures var p := PerformSelect(s, prefix, st, field);
            && p.joins == st.joins
            && p.prefixes == st.prefixes
            && p.select == (if field in s.fields && field in s.fieldNames then AppendSelect(st.select, prefix, field, "")
                            else st.select)
            && p.filters == RecordIndex(st.filters, t)
  {
  }

  /** The candidates getSelectFrom visits, duplicates included: the
      requested fields, the where keys, the text and the numeric search fields. */
  function Candidates(s: Listing): seq<string> {
    s.fields + Keys(s.where) + s.searchTextFields + s.searchNumberFields
  }

  /** performSelectFromField over `fields`, left to right. */
  function Resolve(s: Listing, prefix: string, st: Pass, fields: seq<string>): Pass {
    if |fields| == 0 then st
    else PerformSelect(s, prefix, Resolve(s, prefix, st, fields[..|fields| - 1]), fields[|fields| - 1])
  }

  // ---------------------------------------------------------------------
  // WHERE (getWhere)
  // ---------------------------------------------------------------------

  /** `alias.col` for a where or search key: the root alias and the key for
      a one-segment key, else the last two segments. */
  function Column(prefix: string, key: string): string {
    var keys := Split(key, '_');
    if |keys| == 1 then prefix + "." + keys[0]
    else keys[|keys| - 2] + "." + keys[|keys| - 1]
  }

  function Equality(prefix: string, key: string, value: string): string {
    Column(prefix, key) + " = " + value
  }

  /** LIKE for the text search fields, = for the others. */
  function Comparator(key: string, textFields: seq<string>): string {
    if key in textFields then "LIKE" else "="
  }

  /** The placeholder the search value is bound to. */
  function Placeholder(key: string, textFields: seq<string>): string {
    if key in textFields then ":search" else ":strictSearch"
  }

  function SearchPredicate(prefix: string, key: string, textFields: seq<string>): string {
    Column(prefix, key) + " " + Comparator(key, textFields) + " " + Placeholder(key, textFields)
  }

  /** The `$wheres` list getWhere builds while it visits `keys`. */
  function EqualitiesOf(prefix: string, where: seq<(string, string)>, keys: seq<string>): seq<string> {
    if |keys| == 0 then []
    else
      var key := keys[|keys| - 1];
      EqualitiesOf(prefix, where, keys[..|keys| - 1])
        + (if key in Keys(where) then [Equality(prefix, key, Lookup(where, key))] else [])
  }

  /** The `$searches` list getWhere builds while it visits `keys`. */
  function SearchesOf(prefix: string, textFields: seq<string>, searchFields: seq<string>, keys: seq<string>): seq<string> {
    if |keys| == 0 then []
    else
      var key := keys[|keys| - 1];
      SearchesOf(prefix, textFields, searchFields, keys[..|keys| - 1])
        + (if key in searchFields then [SearchPredicate(prefix, key, textFields)] else [])
  }

  /** The keys getWhere visits: array_unique of the where keys followed by
      the search fields. */
  function WhereFields(where: seq<(string, string)>, searchFields: seq<string>): seq<string> {
    Dedup(Keys(where) + searchFields)
  }

  /** getWhere's result. */
  function WhereClause(prefix: string, where: seq<(string, string)>, textFields: seq<string>, searchFields: seq<string>): string {
    if |where| == 0 && |searchFields| == 0 then ""
    else
      var keys := WhereFields(where, searchFields);
      var wheres := EqualitiesOf(prefix, where, keys);
      var searches := SearchesOf(prefix, textFields, searchFields, keys);
      "WHERE " + CombinePredicates(wheres, searches)
  }

  /** The text after `WHERE `: the equalities joined with AND, then the
      searches joined with OR in parentheses, after ` AND ` when the
      equalities gave any text. */
  function CombinePredicates(wheres: seq<string>, searches: seq<string>): string {
    var r := if |wheres| > 0 then Implode(" AND ", wheres) else "";
    if |searches| > 0 then (if r != "" then r + " AND " else r) + "(" + Implode(" OR ", searches) + ")"
    else r
  }

  // ---------------------------------------------------------------------
  // ORDER BY (getOrderBy)
  // ---------------------------------------------------------------------

  function OrderEntry(prefix: string, entry: (string, string)): string {
    prefix + "." + entry.0 + " " + entry.1
  }

  /** The ORDER BY items, one per sort entry, in the sort map's order. */
  function OrderEntries(prefix: string, sorting: seq<(string, string)>): (r: seq<string>)
    ensures |r| == |sorting|
    ensures forall i :: 0 <= i < |sorting| ==> r[i] == OrderEntry(prefix, sorting[i])
  {
    if |sorting| == 0 then []
    else OrderEntries(prefix, sorting[..|sorting| - 1]) + [OrderEntry(prefix, sorting[|sorting| - 1])]
  }

  /** getOrderBy's result. */
  function OrderBy(prefix: string, sorting: seq<(string, string)>): string {
    if |sorting| == 0 then "" else LineBreak + "ORDER BY " + Implode(", ", OrderEntries(prefix, sorting))
  }

  // ---------------------------------------------------------------------
  // find
  // ---------------------------------------------------------------------

  /** The builder state that survives a call of find: the select text, the
      relational filters, the count flag and the count select. */
  datatype Carry = Carry(select: string, filters: map<string, string>, countQuery: bool, replaceSelect: string)

  /** A builder that has not been used yet. */
  const Fresh := Carry("", map[], false, "")

  /** What find returns and leaves behind: the query, the join text and the
      joined aliases of this call, and the carried state. */
  datatype Outcome = Outcome(dql: string, joins: string, prefixes: seq<string>, carry: Carry)

  /** The pass of getSelectFrom over every candidate, starting from the
      carried select and filters, with no joins and only the root alias known. */
  function ResolveAll(s: Listing, prefix: string, c: Carry): Pass {
    Resolve(s, prefix, Pass([], [prefix], c.select, c.filters), Candidates(s))
  }

  /** The select getSelectFrom settles on: the count select in count mode,
      the root alias when nothing was selected. */
  function FinalSelect(prefix: string, select: string, c: Carry): string {
    if c.countQuery then c.replaceSelect else if |select| == 0 then prefix else select
  }

  function SelectFromClause(entityName: string, prefix: string, select: string, joins: string): string {
    "SELECT " + select + LineBreak + "FROM " + entityName + " " + prefix + JoinsBreak + joins
  }

  /** find(prefix) on a builder built with `s` carrying `c`. */
  function Query(s: Listing, prefix: string, c: Carry): Outcome {
    var p := ResolveAll(s, prefix, c);
    var select := FinalSelect(prefix, p.select, c);
    var joins := RenderJoins(s.joinConditions, p.joins);
    var order := if c.countQuery then "" else OrderBy(prefix, s.sorting);
    var where := WhereClause(prefix, s.where, s.searchTextFields, s.SearchFields());
    Outcome(SelectFromClause(s.entityName, prefix, select, joins) + " " + where + " " + order,
            joins, p.prefixes, Carry(select, p.filters, c.countQuery, c.replaceSelect))
  }

  /** The count select justCount stores. */
  function CountSelect(countAttribute: string, alias: string): string {
    "COUNT(" + countAttribute + ") as " + alias
  }

  /** Rendering distributes over concatenation of join lists. */
  lemma {:induction false} RenderJoinsAppend(joinConditions: map<string, string>, a: seq<Join>, b: seq<Join>)
    ensures RenderJoins(joinConditions, a + b) == RenderJoins(joinConditions, a) + RenderJoins(joinConditions, b)
    decreases |b|
  {
    if |b| == 0 {
      assert a + b == a;
    } else {
      var j := b[|b| - 1];
      assert (a + b)[..|a + b| - 1] == a + b[..|b| - 1];
      assert (a + b)[|a + b| - 1] == j;
      RenderJoinsAppend(joinConditions, a, b[..|b| - 1]);
      AppendAssoc(RenderJoins(joinConditions, a), RenderJoins(joinConditions, b[..|b| - 1]),
                  GenerateJoin(joinConditions, j.parent, j.association, j.alias));
    }
  }

  /** One candidate's effect does not depend on the joins emitted before it:
      it appends its own joins to them. */
  lemma PerformSelectAppendsJoins(s: Listing, prefix: string, st: Pass, field: string)
    ensures var q := PerformSelect(s, prefix, Pass([], st.prefixes, st.select, st.filters), field);
            PerformSelect(s, prefix, st, field) == Pass(st.joins + q.joins, q.prefixes, q.select, q.filters)
  {
    var t := ParseToken(field);
    var st0 := Pass([], st.prefixes, st.select, st.filters);
    if IsRelationPath(s.associationNames, t) {
      PerformSelectJoined(s, prefix, st, field, t);
      PerformSelectJoined(s, prefix, st0, field, t);
      assert [] + NewJoins(t.parts, prefix, st.prefixes) == NewJoins(t.parts, prefix, st.prefixes);
    } else {
      PerformSelectPlain(s, prefix, st, field, t);
      PerformSelectPlain(s, prefix, st0, field, t);
      assert st.joins + [] == st.joins;
    }
  }

  /** One more candidate for Resolve: its own joins are rendered after
      those of the candidates before it. */
  lemma ResolveStep(s: Listing, prefix: string, st: Pass, fields: seq<string>, i: nat)
    requires i < |fields|
    ensures var before := Resolve(s, prefix, st, fields[..i]);
            var q := PerformSelect(s, prefix, Pass([], before.prefixes, before.select, before.filters), fields[i]);
            var after := Resolve(s, prefix, st, fields[..i + 1]);
            && after.prefixes == q.prefixes
            && after.select == q.select
            && after.filters == q.filters
            && RenderJoins(s.joinConditions, after.joins)
                 == RenderJoins(s.joinConditions, before.joins) + RenderJoins(s.joinConditions, q.joins)
  {
    var before := Resolve(s, prefix, st, fields[..i]);
    assert fields[..i + 1][..i] == fields[..i];
    PerformSelectAppendsJoins(s, prefix, before, fields[i]);
    var q := PerformSelect(s, prefix, Pass([], before.prefixes, before.select, before.filters), fields[i]);
    RenderJoinsAppend(s.joinConditions, before.joins, q.joins);
  }

  /** One more key visited by getWhere extends each list by at most one predicate. */
  lemma PredicatesSnoc(prefix: string, where: seq<(string, string)>, textFields: seq<string>,
                       searchFields: seq<string>, keys: seq<string>, key: string)
    ensures EqualitiesOf(prefix, where, keys + [key]) == EqualitiesOf(prefix, where, keys)
              + (if key in Keys(where) then [Equality(prefix, key, Lookup(where, key))] else [])
    ensures SearchesOf(prefix, textFields, searchFields, keys + [key]) == SearchesOf(prefix, textFields, searchFields, keys)
              + (if key in searchFields then [SearchPredicate(prefix, key, textFields)] else [])
  {
    assert (keys + [key])[..|keys|] == keys;
  }
}

/** What one call of find produces and what it leaves to the next: which
    candidates reach the select, the index annotation, the default select,
    count mode, and the select and filters that carry over between calls. */
module Queries {
  import opened Strings
  import opened Dql

  // ---------------------------------------------------------------------
  // Select eligibility
  // ---------------------------------------------------------------------

  /** A candidate adds a select fragment: it was requested as a field (the
      raw token, index suffix included) and it is a relation path or a
      column of the entity. */
  predicate Eligible(s: Listing, field: string) {
    field in s.fields && (IsRelationPath(s.associationNames, ParseToken(field)) || field in s.fieldNames)
  }

  /** addToSelect keeps the select so far as a prefix and adds to it. */
  lemma AppendSelectExtends(select: string, prefix: string, field: string, alias: string)
    ensures |select| < |AppendSelect(select, prefix, field, alias)|
    ensures AppendSelect(select, prefix, field, alias)[..|select|] == select
  {
    var head := if |select| > 0 then select + ", " else select;
    assert AppendSelect(select, prefix, field, alias) == head + GenerateSelect(prefix, field, alias);
    assert head[..|select|] == select;
  }

  /** One candidate extends the select, keeping what was there, exactly
      when it is eligible; otherwise the select is left as it was. */
  lemma PerformSelectSelect(s: Listing, prefix: string, st: Pass, field: string)
    ensures |st.select| <= |PerformSelect(s, prefix, st, field).select|
    ensures PerformSelect(s, prefix, st, field).select[..|st.select|] == st.select
    ensures |st.select| < |PerformSelect(s, prefix, st, field).select| <==> Eligible(s, field)
  {
    var t := ParseToken(field);
    if IsRelationPath(s.associationNames, t) {
      PerformSelectJoined(s, prefix, st, field, t);
      if field in s.fields {
        AppendSelectExtends(st.select, t.parts[|t.parts| - 2], t.parts[|t.parts| - 1], t.realName);
      }
    } else {
      PerformSelectPlain(s, prefix, st, field, t);
      if field in s.fields && field in s.fieldNames {
        AppendSelectExtends(st.select, prefix, field, "");
      }
    }
  }

  /** Some candidate among `fields` is eligible. */
  ghost predicate AnyEligible(s: Listing, fields: seq<string>) {
    exists f :: f in fields && Eligible(s, f)
  }

  lemma AnyEligibleSnoc(s: Listing, fields: seq<string>)
    requires |fields| > 0
    ensures AnyEligible(s, fields) <==> AnyEligible(s, fields[..|fields| - 1]) || Eligible(s, fields[|fields| - 1])
  {
    ExistsSnoc(fields, f => Eligible(s, f));
  }

  /** A prefix of a prefix is a prefix. */
  lemma PrefixTrans(a: string, b: string, c: string)
    requires |a| <= |b| <= |c| && c[..|b|] == b && b[..|a|] == a
    ensures c[..|a|] == a
  {
    assert c[..|a|] == c[..|b|][..|a|];
  }

  /** Over a list of candidates the select only grows, and it grows
      exactly when one of them is eligible: filter and search keys that
      were not requested never reach it. */
  lemma {:induction false} ResolveSelect(s: Listing, prefix: string, st: Pass, fields: seq<string>)
    ensures |st.select| <= |Resolve(s, prefix, st, fields).select|
    ensures Resolve(s, prefix, st, fields).select[..|st.select|] == st.select
    ensures (|st.select| < |Resolve(s, prefix, st, fields).select|) <==> AnyEligible(s, fields)
    decreases |fields|
  {
    if |fields| > 0 {
      var init := fields[..|fields| - 1];
      var last := fields[|fields| - 1];
      var prev := Resolve(s, prefix, st, init);
      var p := Resolve(s, prefix, st, fields);
      assert p == PerformSelect(s, prefix, prev, last);
      ResolveSelect(s, prefix, st, init);
      PerformSelectSelect(s, prefix, prev, last);
      PrefixTrans(st.select, prev.select, p.select);
      AnyEligibleSnoc(s, fields);
    }
  }

  // ---------------------------------------------------------------------
  // The index annotation
  // ---------------------------------------------------------------------

  /** A candidate whose first segment reads `name[digits]` is processed
      with `name` as its first segment, and records the digits under the
      token rebuilt from the stripped segments. */
  lemma IndexAnnotation(s: Listing, prefix: string, st: Pass, field: string, name: string, index: string)
    requires IndexedForm(Split(field, '_')[0], name, index)
    ensures ParseToken(field).parts == Split(field, '_')[0 := name]
    ensures PerformSelect(s, prefix, st, field).filters
              == st.filters[Implode("_", Split(field, '_')[0 := name]) := index]
  {
    var t := ParseToken(field);
    ParseIndexedComplete(Split(field, '_')[0], name, index);
    ParseTokenSteps(field);
    PerformTokenFilters(s, prefix, st, field, t);
  }

  /** Any other candidate keeps its segments and leaves the filters alone. */
  lemma NoIndexAnnotation(s: Listing, prefix: string, st: Pass, field: string)
    requires forall name, index :: !IndexedForm(Split(field, '_')[0], name, index)
    ensures ParseToken(field).parts == Split(field, '_')
    ensures PerformSelect(s, prefix, st, field).filters == st.filters
  {
    var t := ParseToken(field);
    ParseIndexedSound(Split(field, '_')[0]);
    ParseTokenSteps(field);
    PerformTokenFilters(s, prefix, st, field, t);
  }

  /** `k` is the key under which candidate `f` records an index. */
  predicate Annotates(f: string, k: string) {
    ParseToken(f).index.Some? && ParseToken(f).realName == k
  }

  /** Some candidate among `fields` records an index under `k`. */
  ghost predicate AnyAnnotates(fields: seq<string>, k: string) {
    exists f :: f in fields && Annotates(f, k)
  }

  lemma AnyAnnotatesSnoc(fields: seq<string>, k: string)
    requires |fields| > 0
    ensures AnyAnnotates(fields, k) <==> AnyAnnotates(fields[..|fields| - 1], k) || Annotates(fields[|fields| - 1], k)
  {
    ExistsSnoc(fields, f => Annotates(f, k));
  }

  lemma PerformSelectFilterKeys(s: Listing, prefix: string, st: Pass, field: string)
    ensures forall k :: k in PerformSelect(s, prefix, st, field).filters <==> k in st.filters || Annotates(field, k)
  {
    PerformTokenFilters(s, prefix, st, field, ParseToken(field));
  }

  /** The relational filters after a list of candidates: those there
      before, and one key for each candidate that carries an index. */
  lemma {:induction false} ResolveFilterKeys(s: Listing, prefix: string, st: Pass, fields: seq<string>)
    ensures forall k :: k in Resolve(s, prefix, st, fields).filters <==> k in st.filters || AnyAnnotates(fields, k)
    decreases |fields|
  {
    if |fields| > 0 {
      var init := fields[..|fields| - 1];
      var last := fields[|fields| - 1];
      var prev := Resolve(s, prefix, st, init);
      var p := Resolve(s, prefix, st, fields);
      assert p == PerformSelect(s, prefix, prev, last);
      ResolveFilterKeys(s, prefix, st, init);
      PerformSelectFilterKeys(s, prefix, prev, last);
      forall k
        ensures k in p.filters <==> k in st.filters || AnyAnnotates(fields, k)
      {
        AnyAnnotatesSnoc(fields, k);
      }
    }
  }

  // ---------------------------------------------------------------------
  // Joins and prefixes do not depend on the select or the filters
  // ---------------------------------------------------------------------

  lemma PerformSelectJoinsIndependent(s: Listing, prefix: string, st1: Pass, st2: Pass, field: string)
    requires st1.joins == st2.joins && st1.prefixes == st2.prefixes
    ensures PerformSelect(s, prefix, st1, field).joins == PerformSelect(s, prefix, st2, field).joins
    ensures PerformSelect(s, prefix, st1, field).prefixes == PerformSelect(s, prefix, st2, field).prefixes
  {
    var t := ParseToken(field);
    if IsRelationPath(s.associationNames, t) {
      PerformSelectJoined(s, prefix, st1, field, t);
      PerformSelectJoined(s, prefix, st2, field, t);
    } else {
      PerformSelectPlain(s, prefix, st1, field, t);
      PerformSelectPlain(s, prefix, st2, field, t);
    }
  }

  /** The joins a pass emits depend only on the joins and aliases it starts
      from, never on the select or the filters carried into it. */
  lemma {:induction false} ResolveJoinsIndependent(s: Listing, prefix: string, st1: Pass, st2: Pass, fields: seq<string>)
    requires st1.joins == st2.joins && st1.prefixes == st2.prefixes
    ensures Resolve(s, prefix, st1, fields).joins == Resolve(s, prefix, st2, fields).joins
    ensures Resolve(s, prefix, st1, fields).prefixes == Resolve(s, prefix, st2, fields).prefixes
    decreases |fields|
  {
    if |fields| > 0 {
      var init := fields[..|fields| - 1];
      ResolveJoinsIndependent(s, prefix, st1, st2, init);
      PerformSelectJoinsIndependent(s, prefix, Resolve(s, prefix, st1, init), Resolve(s, prefix, st2, init),
                                    fields[|fields| - 1]);
    }
  }

  /** Two finds with the same prefix emit the same joins, whatever state
      each inherits. */
  lemma FindJoinsIndependent(s: Listing, prefix: string, c1: Carry, c2: Carry)
    ensures Query(s, prefix, c1).joins == Query(s, prefix, c2).joins
    ensures Query(s, prefix, c1).prefixes == Query(s, prefix, c2).prefixes
  {
    ResolveJoinsIndependent(s, prefix, Pass([], [prefix], c1.select, c1.filters),
                            Pass([], [prefix], c2.select, c2.filters), Candidates(s));
  }

  // ---------------------------------------------------------------------
  // The select of find
  // ---------------------------------------------------------------------

  /** Outside count mode, a builder whose select is still empty selects
      the root alias alone when no candidate is eligible, and the
      fragments of the eligible ones otherwise. */
  lemma DefaultSelect(s: Listing, prefix: string, c: Carry)
    requires !c.countQuery && c.select == ""
    ensures !AnyEligible(s, Candidates(s)) ==> Query(s, prefix, c).carry.select == prefix
    ensures AnyEligible(s, Candidates(s)) ==>
              Query(s, prefix, c).carry.select == ResolveAll(s, prefix, c).select != ""
  {
    ResolveSelect(s, prefix, Pass([], [prefix], c.select, c.filters), Candidates(s));
  }

  /** With no filter, no search and no sorting there is neither a WHERE nor
      an ORDER BY clause: the query ends after the joins with the two
      separating blanks. */
  lemma NoClauses(s: Listing, prefix: string, c: Carry)
    requires s.where == [] && s.searchTextFields == [] && s.searchNumberFields == [] && s.sorting == []
    ensures Query(s, prefix, c).dql
              == SelectFromClause(s.entityName, prefix, Query(s, prefix, c).carry.select, Query(s, prefix, c).joins) + "  "
  {
  }

  /** A fresh builder over a listing that asks for nothing queries the
      root alias of the entity and nothing else. */
  lemma EmptyListingQuery()
    ensures Query(Listing([], [], "Contact", [], [], [], [], [], map[]), "u", Fresh).dql
              == "SELECT u" + LineBreak + "FROM Contact u" + JoinsBreak + "  "
  {
    var s := Listing([], [], "Contact", [], [], [], [], [], map[]);
    assert Candidates(s) == [];
    DefaultSelect(s, "u", Fresh);
    NoClauses(s, "u", Fresh);
  }

  // ---------------------------------------------------------------------
  // Count mode
  // ---------------------------------------------------------------------

  /** A candidate's effect reads only the association names, the
      requested fields and the entity's columns of the listing. */
  lemma PerformSelectSettings(s1: Listing, s2: Listing, prefix: string, st: Pass, field: string)
    requires s1.associationNames == s2.associationNames && s1.fields == s2.fields && s1.fieldNames == s2.fieldNames
    ensures PerformSelect(s1, prefix, st, field) == PerformSelect(s2, prefix, st, field)
  {
  }

  /** A pass does not read the sorting of the listing. */
  lemma {:induction false} ResolveIgnoresSorting(s: Listing, sorting: seq<(string, string)>, prefix: string, st: Pass,
                                                 fields: seq<string>)
    ensures Resolve(s.(sorting := sorting), prefix, st, fields) == Resolve(s, prefix, st, fields)
    decreases |fields|
  {
    if |fields| > 0 {
      var init := fields[..|fields| - 1];
      ResolveIgnoresSorting(s, sorting, prefix, st, init);
      PerformSelectSettings(s.(sorting := sorting), s, prefix, Resolve(s, prefix, st, init), fields[|fields| - 1]);
    }
  }

  /** In count mode the select is the count select and there is no ORDER
      BY: the query does not depend on the sorting at all. */
  lemma CountMode(s: Listing, prefix: string, c: Carry, sorting: seq<(string, string)>)
    requires c.countQuery
    ensures Query(s, prefix, c).carry.select == c.replaceSelect
    ensures Query(s, prefix, c).dql
              == SelectFromClause(s.entityName, prefix, c.replaceSelect, Query(s, prefix, c).joins) + " "
                 + WhereClause(prefix, s.where, s.searchTextFields, s.SearchFields()) + " "
    ensures Query(s.(sorting := sorting), prefix, c).dql == Query(s, prefix, c).dql
  {
    assert Candidates(s.(sorting := sorting)) == Candidates(s);
    ResolveIgnoresSorting(s, sorting, prefix, Pass([], [prefix], c.select, c.filters), Candidates(s));
  }

  /** In count mode find can be called again: the second call returns the
      same query and stays in count mode. */
  lemma CountRepeatable(s: Listing, prefix: string, c: Carry)
    requires c.countQuery
    ensures Query(s, prefix, Query(s, prefix, c).carry).dql == Query(s, prefix, c).dql
    ensures Query(s, prefix, c).carry.countQuery
  {
    FindJoinsIndependent(s, prefix, c, Query(s, prefix, c).carry);
  }

  // ---------------------------------------------------------------------
  // State carried from one find to the next
  // ---------------------------------------------------------------------

  /** Outside count mode, a second find on the same builder appends the
      eligible fragments once more after those of the first: its select
      strictly extends the first one's, so the two queries differ. */
  lemma SelectAccumulates(s: Listing, prefix: string, c: Carry)
    requires !c.countQuery
    requires AnyEligible(s, Candidates(s))
    ensures |Query(s, prefix, c).carry.select| < |Query(s, prefix, Query(s, prefix, c).carry).carry.select|
    ensures Query(s, prefix, Query(s, prefix, c).carry).carry.select[..|Query(s, prefix, c).carry.select|]
              == Query(s, prefix, c).carry.select
    ensures Query(s, prefix, Query(s, prefix, c).carry).dql != Query(s, prefix, c).dql
  {
    var c1 := Query(s, prefix, c).carry;
    ResolveSelect(s, prefix, Pass([], [prefix], c.select, c.filters), Candidates(s));
    ResolveSelect(s, prefix, Pass([], [prefix], c1.select, c1.filters), Candidates(s));
    FindJoinsIndependent(s, prefix, c, c1);
    var q1 := Query(s, prefix, c);
    var q2 := Query(s, prefix, c1);
    assert |q1.dql| < |q2.dql|;
  }

  /** The relational filters are never reset: after find they hold the
      carried keys and one key for each indexed candidate. */
  lemma FilterKeys(s: Listing, prefix: string, c: Carry)
    ensures forall k :: k in Query(s, prefix, c).carry.filters <==> k in c.filters || AnyAnnotates(Candidates(s), k)
  {
    ResolveFilterKeys(s, prefix, Pass([], [prefix], c.select, c.filters), Candidates(s));
  }

  /** The index recorded under `k` by the last candidate of `fields` that
      records one there, if any. */
  function LastIndex(fields: seq<string>, k: string): Option<string> {
    if |fields| == 0 then None
    else if Annotates(fields[|fields| - 1], k) then ParseToken(fields[|fields| - 1]).index
    else LastIndex(fields[..|fields| - 1], k)
  }

  /** The values of the relational filters after a list of candidates: a
      later write under the same key overwrites an earlier one, and a key
      no candidate writes keeps the value it had. */
  lemma {:induction false} ResolveFilterValues(s: Listing, prefix: string, st: Pass, fields: seq<string>)
    ensures forall k :: LastIndex(fields, k).Some? ==>
              k in Resolve(s, prefix, st, fields).filters &&
              Resolve(s, prefix, st, fields).filters[k] == LastIndex(fields, k).value
    ensures forall k :: LastIndex(fields, k).None? ==>
              (k in Resolve(s, prefix, st, fields).filters <==> k in st.filters) &&
              (k in st.filters ==> Resolve(s, prefix, st, fields).filters[k] == st.filters[k])
    decreases |fields|
  {
    if |fields| > 0 {
      var init := fields[..|fields| - 1];
      var last := fields[|fields| - 1];
      var prev := Resolve(s, prefix, st, init);
      var p := Resolve(s, prefix, st, fields);
      assert p == PerformSelect(s, prefix, prev, last);
      ResolveFilterValues(s, prefix, st, init);
      PerformTokenFilters(s, prefix, prev, last, ParseToken(last));
    }
  }

  /** After find, each relational filter holds the index of the last
      candidate recorded under its key, or else the value carried over. */
  lemma FilterValues(s: Listing, prefix: string, c: Carry)
    ensures forall k :: LastIndex(Candidates(s), k).Some? ==>
              k in Query(s, prefix, c).carry.filters &&
              Query(s, prefix, c).carry.filters[k] == LastIndex(Candidates(s), k).value
    ensures forall k :: LastIndex(Candidates(s), k).None? && k in c.filters ==>
              k in Query(s, prefix, c).carry.filters && Query(s, prefix, c).carry.filters[k] == c.filters[k]
  {
    ResolveFilterValues(s, prefix, Pass([], [prefix], c.select, c.filters), Candidates(s));
  }

  // ---------------------------------------------------------------------
  // Examples
  // ---------------------------------------------------------------------

  /** explode of a two-segment token. */
  lemma SplitTwo(a: string, b: string)
    requires '_' !in a && '_' !in b
    ensures Split(a + "_" + b, '_') == [a, b]
  {
    SplitPrefix(a, '_', b);
    SplitNoSep(b, '_');
  }

  /** A first segment without `[` carries no index. */
  lemma NoBracketNoIndex(a: string)
    requires '[' !in a
    ensures ParseIndexed(a) == None
  {
    ParseIndexedSound(a);
  }

  /** `name[index]_last`: the index is taken from the first segment, the
      token is processed as `name_last`, and the index is recorded under
      that name. */
  lemma IndexedToken(name: string, index: string, last: string)
    requires |index| > 0 && IsDigits(index) && '\n' !in name
    requires '_' !in name && '_' !in last
    ensures ParseToken(name + "[" + index + "]_" + last) == Token([name, last], name + "_" + last, Some(index))
  {
    var first := name + "[" + index + "]";
    SplitTwo(first, last);
    assert first + "_" + last == name + "[" + index + "]_" + last;
    ParseIndexedComplete(first, name, index);
    ParseTokenSteps(name + "[" + index + "]_" + last);
  }

  /** An indexed relation path `name[index]_last` records its index under
      `name_last` and is selected with that stripped alias, but only when
      the token as written, bracket included, is a requested field. */
  lemma IndexedPathSelect(s: Listing, prefix: string, st: Pass, name: string, index: string, last: string)
    requires |index| > 0 && IsDigits(index) && '\n' !in name
    requires '_' !in name && '_' !in last
    requires IsRelation(s.associationNames, name)
    ensures var field := name + "[" + index + "]_" + last;
            var p := PerformSelect(s, prefix, st, field);
            && p.select == (if field in s.fields then AppendSelect(st.select, name, last, name + "_" + last) else st.select)
            && p.filters == st.filters[name + "_" + last := index]
  {
    var field := name + "[" + index + "]_" + last;
    IndexedToken(name, index, last);
    PerformSelectJoined(s, prefix, st, field, ParseToken(field));
  }

  /** The candidates are not deduplicated: a requested column of the
      entity met twice (say, also as a where key) is selected twice. */
  lemma RepeatedFieldSelectedTwice(s: Listing, prefix: string, st: Pass, f: string)
    requires f in s.fields && f in s.fieldNames
    requires !IsRelationPath(s.associationNames, ParseToken(f))
    ensures Resolve(s, prefix, st, [f, f]).select == AppendSelect(AppendSelect(st.select, prefix, f, ""), prefix, f, "")
  {
    assert [f, f][..1] == [f];
    assert [f][..0] == [];
    var once := PerformSelect(s, prefix, st, f);
    PerformSelectPlain(s, prefix, st, f, ParseToken(f));
    PerformSelectPlain(s, prefix, once, f, ParseToken(f));
    assert Resolve(s, prefix, st, [f]) == once;
    assert Resolve(s, prefix, st, [f, f]) == PerformSelect(s, prefix, once, f);
  }

  /** `name[i]_last` and then `name[j]_last`: both record under
      `name_last`, and the second index wins. */
  lemma LaterIndexWins(s: Listing, prefix: string, st: Pass, name: string, i: string, j: string, last: string)
    requires |i| > 0 && IsDigits(i) && |j| > 0 && IsDigits(j) && '\n' !in name
    requires '_' !in name && '_' !in last
    ensures var filters := Resolve(s, prefix, st, [name + "[" + i + "]_" + last, name + "[" + j + "]_" + last]).filters;
            name + "_" + last in filters && filters[name + "_" + last] == j
  {
    var fields := [name + "[" + i + "]_" + last, name + "[" + j + "]_" + last];
    IndexedToken(name, i, last);
    IndexedToken(name, j, last);
    assert Annotates(fields[1], name + "_" + last);
    assert LastIndex(fields, name + "_" + last) == Some(j);
    ResolveFilterValues(s, prefix, st, fields);
  }

  /** A three-segment token whose first segment holds no `[`. */
  lemma ThreeSegments(a: string, b: string, c: string)
    requires '_' !in a && '_' !in b && '_' !in c && '[' !in a
    ensures ParseToken(a + "_" + b + "_" + c) == Token([a, b, c], a + "_" + b + "_" + c, None)
  {
    var field := a + "_" + b + "_" + c;
    SplitPrefix(a, '_', b + "_" + c);
    SplitTwo(b, c);
    AppendAssoc(a + "_", b, "_");
    AppendAssoc(a + "_", b + "_", c);
    NoBracketNoIndex(a);
    ParseTokenSteps(field);
  }

  /** The first path `a_b_x` met with only the root alias known joins
      `a` under the root alias and `b` under `a`. */
  lemma FirstPathJoins(s: Listing, prefix: string, st: Pass, a: string, b: string, x: string)
    requires '_' !in a && '_' !in b && '_' !in x && '[' !in a
    requires a != prefix && b != prefix && a != b
    requires IsRelation(s.associationNames, a)
    requires st.joins == [] && st.prefixes == [prefix]
    ensures PerformSelect(s, prefix, st, a + "_" + b + "_" + x).joins == [Join(prefix, a, a), Join(a, b, b)]
    ensures PerformSelect(s, prefix, st, a + "_" + b + "_" + x).prefixes == [prefix, a, b]
  {
    var f := a + "_" + b + "_" + x;
    ThreeSegments(a, b, x);
    FreshPathJoins(prefix, a, b, x);
    assert Aliases([Join(prefix, a, a), Join(a, b, b)]) == [a, b];
    PerformSelectJoined(s, prefix, st, f, ParseToken(f));
  }

  /** generateJoins on `a_b_x` with only the root alias known. */
  lemma FreshPathJoins(prefix: string, a: string, b: string, x: string)
    requires a != prefix && b != prefix && a != b
    ensures NewJoins([a, b, x], prefix, [prefix]) == [Join(prefix, a, a), Join(a, b, b)]
  {
    var parts := [a, b, x];
    JoinsUpToStep(parts, prefix, [prefix], 0);
    assert JoinsUpTo(parts, prefix, [prefix], 1) == [Join(prefix, a, a)];
    JoinsUpToStep(parts, prefix, [prefix], 1);
    assert Aliases([Join(prefix, a, a)]) == [a];
  }

  /** A later path `a_b_y` finds `a` and `b` joined and joins nothing. */
  lemma LaterPathJoins(s: Listing, prefix: string, st: Pass, a: string, b: string, y: string)
    requires '_' !in a && '_' !in b && '_' !in y && '[' !in a
    requires IsRelation(s.associationNames, a)
    requires a in st.prefixes && b in st.prefixes
    ensures PerformSelect(s, prefix, st, a + "_" + b + "_" + y).joins == st.joins
    ensures PerformSelect(s, prefix, st, a + "_" + b + "_" + y).prefixes == st.prefixes
  {
    var f := a + "_" + b + "_" + y;
    ThreeSegments(a, b, y);
    KnownPathJoins(prefix, st.prefixes, a, b, y);
    assert st.prefixes + [] == st.prefixes;
    PerformSelectJoined(s, prefix, st, f, ParseToken(f));
  }

  /** generateJoins on `a_b_y` once `a` and `b` are joined. */
  lemma KnownPathJoins(prefix: string, known: seq<string>, a: string, b: string, y: string)
    requires a in known && b in known
    ensures NewJoins([a, b, y], prefix, known) == []
  {
    var parts := [a, b, y];
    JoinsUpToStep(parts, prefix, known, 0);
    JoinsUpToStep(parts, prefix, known, 1);
  }

  /** Two candidates under the same relation path share its joins: `a_b_x`
      and `a_b_y` join `a` and `b` once each, `a` under the root alias and
      `b` under `a`. */
  lemma SiblingPaths(s: Listing, prefix: string, c: Carry, a: string, b: string, x: string, y: string)
    requires '_' !in a && '_' !in b && '_' !in x && '_' !in y && '[' !in a
    requires a != prefix && b != prefix && a != b
    requires IsRelation(s.associationNames, a)
    requires Candidates(s) == [a + "_" + b + "_" + x, a + "_" + b + "_" + y]
    ensures ResolveAll(s, prefix, c).joins == [Join(prefix, a, a), Join(a, b, b)]
  {
    var f1 := a + "_" + b + "_" + x;
    var f2 := a + "_" + b + "_" + y;
    var st0 := Pass([], [prefix], c.select, c.filters);
    FirstPathJoins(s, prefix, st0, a, b, x);
    var st1 := PerformSelect(s, prefix, st0, f1);
    LaterPathJoins(s, prefix, st1, a, b, y);
    assert Candidates(s)[..1] == [f1];
    assert Resolve(s, prefix, st0, Candidates(s)[..1]) == st1;
  }

  /** The concrete case: association `a`, tokens `a_b_x` and `a_b_y`. */
  lemma SiblingPathsExample()
    ensures ResolveAll(Listing(["a"], [], "Contact", ["a_b_x", "a_b_y"], [], [], [], [], map[]), "u", Fresh).joins
              == [Join("u", "a", "a"), Join("a", "b", "b")]
  {
    var s := Listing(["a"], [], "Contact", ["a_b_x", "a_b_y"], [], [], [], [], map[]);
    assert Keys(s.where) == [];
    assert Candidates(s) == ["a_b_x", "a_b_y"];
    assert "a" + "_" + "b" + "_" + "x" == "a_b_x";
    assert "a" + "_" + "b" + "_" + "y" == "a_b_y";
    SiblingPaths(s, "u", Fresh, "a", "b", "x", "y");
  }
}

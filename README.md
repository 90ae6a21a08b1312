# ListQueryBuilder, modelled in Dafny

Sulu's `ListQueryBuilder` turns a listing request into one Doctrine DQL
query string:
- the root entity name, its association names and its column names;
- the requested fields;
- the filter map;
- the text and numeric search fields;
- the sort map;
- custom join conditions.

`find($prefix)` produces the query from four parts:
- `SELECT … FROM Entity prefix`;
- `LEFT JOIN parent.segment segment [WITH condition]` joins for the
  requested, filtered or searched field tokens `segment_…_segment_column`
  whose first segment is an association (line 209). Every segment but the
  last is joined under the segment before it, or under the root alias for
  the first, whatever that segment names. A segment whose name is already
  a known alias (the root alias or one joined earlier in the same call) is
  skipped (line 271);
- a `WHERE` clause of equalities and a parenthesised group of search
  predicates;
- an `ORDER BY` clause.

`justCount` switches the builder to count mode. A field token whose first
segment reads `name[N]` records `N` in the relational filters, under the
token with the bracket removed. `getRelationalFilters` returns those
filters.

The project has six modules:

- `Strings`: PHP's `explode`/`implode` with their round trips, the
  `/^(.*)\[(\d+)\]$/` match as explicit parsing, and `array_unique`
  (first occurrence kept).
- `Dql`: the query text as pure functions of the construction parameters
  and of the state a call of `find` starts from. `Query` is `find`,
  `Resolve` is the loop of `getSelectFrom`, `PerformSelect` is
  `performSelectFromField`, `NewJoins` is `generateJoins`, `WhereClause`
  is `getWhere` and `OrderBy` is `getOrderBy`.
- `Builder`: the class `ListQueryBuilder`, with the PHP object's fields.
  The fields `find` and `justCount` update are mutable: `prefixes`,
  `joins`, `select`, `replaceSelect`, `countQuery` and
  `relationalFilters`. Each method carries a loop or a sequence of
  updates, as the PHP does, and is proved to leave the state the `Dql`
  functions describe.
- `Properties`: the join guarantees. Every alias is joined at most once.
  Every segment but the last of a relation path ends up a known alias
  (the root alias or a joined one). Every join is the join of a path
  segment under its parent.
- `Queries`: what one call of `find` selects and records, count mode, and
  what state survives from one call to the next.
- `Clauses`: the shape of the WHERE and ORDER BY clauses.

Behaviour of the code worth knowing:

- The index suffix `[N]` is looked for on the first segment of a token,
  `explode('_', $field)[0]` (lines 197-206). So `phones[2]_number`
  records `phones_number => 2`, and `phones_number[2]` records nothing.
- The candidate fields of `getSelectFrom` are not deduplicated (lines
  162-167). A field that is requested and also a where key is visited
  twice. When it is selected at all, it is selected twice. It is selected
  when it is a relation path or a column name of the entity (lines 209
  and 222).
- Only `joins` and `prefixes` are reset at the start of `find` (lines
  158-159). The select text and the relational filters carry over to the
  next call. A second `find` outside count mode appends the same select
  fragments again.
- `justCount`'s default count attribute is the literal `u.id`, whatever
  prefix `find` is given later (line 143).
- A token whose first segment is not an association is selected on the
  root alias when it is requested and is a column name (line 222). It does
  not have to be a single segment.

## Model

| member | source | states |
|---|---|---|
| Builder.ListQueryBuilder.constructor | src/Sulu/Component/Rest/Listing/ListQueryBuilder.php:102-117 | the builder keeps the construction parameters; its search fields are the text search fields followed by the numeric ones; it starts outside count mode with an empty select, no relational filters, no joins and no known aliases |
| Builder.ListQueryBuilder.Find | src/Sulu/Component/Rest/Listing/ListQueryBuilder.php:126-138 | find returns `Query`'s text, made of the SELECT/FROM/JOIN part, the WHERE clause and, outside count mode, the ORDER BY clause; it leaves exactly the join text, aliases, select, filters and count state that `Query` says |
| Builder.ListQueryBuilder.JustCount | src/Sulu/Component/Rest/Listing/ListQueryBuilder.php:143-147 | switches to count mode with `COUNT(attribute) as alias` as the select; changes nothing else |
| Builder.ListQueryBuilder.GetSelectFrom | src/Sulu/Component/Rest/Listing/ListQueryBuilder.php:156-186 | resets joins and aliases, runs performSelectFromField over every candidate in order (proved by loop invariant against `Resolve`), then settles the select: the count select, else the root alias when empty |
| Builder.ListQueryBuilder.PerformSelectFromField | src/Sulu/Component/Rest/Listing/ListQueryBuilder.php:194-225 | one candidate appends its joins, aliases, select fragment and index as `PerformSelect` says |
| Builder.ListQueryBuilder.ParseField | src/Sulu/Component/Rest/Listing/ListQueryBuilder.php:197-206 | the parts, real name and index of a token are `ParseToken`'s |
| Builder.ListQueryBuilder.SelectToken | src/Sulu/Component/Rest/Listing/ListQueryBuilder.php:209-224 | a relation path is joined and, when requested, selected as `parent.column realName`; any other field is selected on the root alias when requested and a column name |
| Builder.ListQueryBuilder.AddToSelect | src/Sulu/Component/Rest/Listing/ListQueryBuilder.php:234-240 | the select becomes the old select, then `, ` when it was not empty, then the new fragment |
| Builder.ListQueryBuilder.GenerateJoins | src/Sulu/Component/Rest/Listing/ListQueryBuilder.php:266-283 | the loop renders exactly the joins `NewJoins` lists and appends their aliases to the known aliases |
| Builder.ListQueryBuilder.GetWhere | src/Sulu/Component/Rest/Listing/ListQueryBuilder.php:341-400 | the loop over the deduplicated where keys and search fields computes `WhereClause` |
| Builder.ListQueryBuilder.GetOrderBy | src/Sulu/Component/Rest/Listing/ListQueryBuilder.php:409-427 | the loop over the sort map computes `OrderBy` |
| Builder.ListQueryBuilder.GetRelationalFilters | src/Sulu/Component/Rest/Listing/ListQueryBuilder.php:429-432 | returns the relational filters recorded by all calls of find so far |
| Dql.Query | src/Sulu/Component/Rest/Listing/ListQueryBuilder.php:126-138 | find on a builder built with the given parameters and carrying the given state: the SELECT/FROM/JOIN part, a space, the WHERE clause, a space, and the ORDER BY clause outside count mode; the carried select becomes the settled select and the filters those recorded by the pass |
| Dql.Candidates | src/Sulu/Component/Rest/Listing/ListQueryBuilder.php:162-167 | the candidates getSelectFrom visits: the requested fields, the where keys, the text search fields and the numeric search fields, concatenated without deduplication |
| Dql.Resolve | src/Sulu/Component/Rest/Listing/ListQueryBuilder.php:169-173 | performSelectFromField applied to each candidate from left to right |
| Dql.ResolveAll | src/Sulu/Component/Rest/Listing/ListQueryBuilder.php:156-173 | the pass of getSelectFrom: no joins, only the root alias known, and the select and filters carried over, then every candidate |
| Dql.FinalSelect | src/Sulu/Component/Rest/Listing/ListQueryBuilder.php:175-179 | the count select in count mode, otherwise the root alias when nothing was selected, otherwise the select built |
| Dql.SelectFromClause | src/Sulu/Component/Rest/Listing/ListQueryBuilder.php:181-185 | the `sprintf` template: `SELECT select`, a line break, `FROM entity prefix`, a line break, the join text |
| Dql.PerformSelect | src/Sulu/Component/Rest/Listing/ListQueryBuilder.php:194-225 | performSelectFromField on one candidate: parse it, then act on the parsed token |
| Dql.PerformToken | src/Sulu/Component/Rest/Listing/ListQueryBuilder.php:202-224 | record the index, then for a token of two or more segments whose first segment is an association append the joins generateJoins emits and, when the raw token is requested, select its last segment on the alias of the one before, aliased by the real name; otherwise select the raw token on the root alias when requested and a column name |
| Dql.RecordIndex | src/Sulu/Component/Rest/Listing/ListQueryBuilder.php:202-206 | an index found is written under the real name; without one the filters are unchanged |
| Dql.IsRelation | src/Sulu/Component/Rest/Listing/ListQueryBuilder.php:329-332 | a segment is a relation when it is one of the association names |
| Dql.IsRelationPath | src/Sulu/Component/Rest/Listing/ListQueryBuilder.php:209 | the test of the relation branch: the token has two or more segments and its first segment, stripped of its index, is an association name |
| Dql.Listing.SearchFields | src/Sulu/Component/Rest/Listing/ListQueryBuilder.php:114 | the search fields: `array_merge` of the text search fields and the numeric search fields, text ones first |
| Dql.GenerateSelect | src/Sulu/Component/Rest/Listing/ListQueryBuilder.php:251-256 | `prefix.field alias` |
| Dql.AppendSelect | src/Sulu/Component/Rest/Listing/ListQueryBuilder.php:234-240 | the old select, `, ` when it was not empty, then the new fragment |
| Dql.JoinParent | src/Sulu/Component/Rest/Listing/ListQueryBuilder.php:273 | the parent of segment i: the root alias for the first segment, the previous segment otherwise |
| Dql.JoinsUpTo | src/Sulu/Component/Rest/Listing/ListQueryBuilder.php:270-280 | the joins emitted while visiting the first n segments: each segment is joined under its parent, with its own name as alias, unless that name is already known or joined |
| Dql.JoinSteps | src/Sulu/Component/Rest/Listing/ListQueryBuilder.php:270 | generateJoins visits every segment but the last |
| Dql.NewJoins | src/Sulu/Component/Rest/Listing/ListQueryBuilder.php:266-283 | the joins one call of generateJoins emits |
| Dql.GenerateJoin | src/Sulu/Component/Rest/Listing/ListQueryBuilder.php:294-301 | a line break, then `LEFT JOIN parent.association alias `, then the join condition |
| Dql.RenderJoins | src/Sulu/Component/Rest/Listing/ListQueryBuilder.php:270-280 | the join text of a list of joins: the rendered joins, concatenated in order |
| Dql.WhereFields | src/Sulu/Component/Rest/Listing/ListQueryBuilder.php:349-354 | the keys getWhere visits: array_unique of the where keys followed by the search fields |
| Dql.Column | src/Sulu/Component/Rest/Listing/ListQueryBuilder.php:357-365 | `prefix.key` for a one-segment key, otherwise the last segment on the alias of the second-to-last |
| Dql.Equality | src/Sulu/Component/Rest/Listing/ListQueryBuilder.php:369 | `column = value`, with the where value pasted verbatim |
| Dql.Comparator | src/Sulu/Component/Rest/Listing/ListQueryBuilder.php:372-379 | `LIKE` for a text search field, `=` otherwise |
| Dql.Placeholder | src/Sulu/Component/Rest/Listing/ListQueryBuilder.php:373-379 | `:search` for a text search field, `:strictSearch` otherwise |
| Dql.SearchPredicate | src/Sulu/Component/Rest/Listing/ListQueryBuilder.php:380 | `column comparator placeholder` |
| Dql.EqualitiesOf | src/Sulu/Component/Rest/Listing/ListQueryBuilder.php:356-370 | the equalities, one per visited key that is a where key, in visiting order |
| Dql.SearchesOf | src/Sulu/Component/Rest/Listing/ListQueryBuilder.php:356-381 | the search predicates, one per visited key that is a search field, in visiting order |
| Dql.CombinePredicates | src/Sulu/Component/Rest/Listing/ListQueryBuilder.php:385-394 | the equalities joined with ` AND `, then, when there are searches, ` AND ` if the equalities gave any text, then the searches joined with ` OR ` in parentheses |
| Dql.WhereClause | src/Sulu/Component/Rest/Listing/ListQueryBuilder.php:341-400 | empty when there is neither a where entry nor a search field, otherwise `WHERE ` followed by the combined predicates |
| Dql.OrderEntry | src/Sulu/Component/Rest/Listing/ListQueryBuilder.php:420 | `prefix.column direction` |
| Dql.OrderBy | src/Sulu/Component/Rest/Listing/ListQueryBuilder.php:409-427 | empty without sort entries, otherwise a line break, `ORDER BY ` and the entries joined with `, ` |
| Dql.CountSelect | src/Sulu/Component/Rest/Listing/ListQueryBuilder.php:146 | `COUNT(attribute) as alias` |
| Strings.Implode | src/Sulu/Component/Rest/Listing/ListQueryBuilder.php:204 | PHP implode: the pieces with the separator between each two of them, and the empty string for no pieces |
| Strings.ParseIndexed | src/Sulu/Component/Rest/Listing/ListQueryBuilder.php:202 | the match of `/^(.*)\[(\d+)\]$/` on a segment: drop one final newline (PCRE `$`), then require `]` at the end, a non-empty run of digits before it, `[` before those, and no newline in the name (`.` does not match one) |
| Strings.IndexedForm | src/Sulu/Component/Rest/Listing/ListQueryBuilder.php:202 | what a match of `/^(.*)\[(\d+)\]$/` means: the segment is `name[index]`, optionally followed by one final newline; `index` is one or more ASCII digits and `name` holds no newline |
| Dql.Keys | src/Sulu/Component/Rest/Listing/ListQueryBuilder.php:164 | `array_keys`: one key per entry, in order |
| Dql.Lookup | src/Sulu/Component/Rest/Listing/ListQueryBuilder.php:369 | the value read is the value of an entry with that key |
| Dql.GenerateJoinCondition | src/Sulu/Component/Rest/Listing/ListQueryBuilder.php:310-320 | the condition is non-empty exactly when the association has a custom join condition, and then is ` WITH ` followed by it |
| Dql.Aliases | src/Sulu/Component/Rest/Listing/ListQueryBuilder.php:277 | the alias list holds the alias of each join, in order |
| Dql.JoinsUpToStep | src/Sulu/Component/Rest/Listing/ListQueryBuilder.php:270-280 | proof step, unfolding the definition: one loop step of generateJoins adds a join for segment n exactly when it is not yet a known alias |
| Dql.JoinsUpToShape | src/Sulu/Component/Rest/Listing/ListQueryBuilder.php:270-280 | every join generateJoins emits joins a segment under the previous segment, or under the root alias for the first |
| Dql.JoinsUpToCover | src/Sulu/Component/Rest/Listing/ListQueryBuilder.php:270-280 | after the loop every visited segment is a known alias |
| Dql.JoinsUpToOnce | src/Sulu/Component/Rest/Listing/ListQueryBuilder.php:270-280 | the known aliases stay free of repetitions |
| Dql.ParseToken | src/Sulu/Component/Rest/Listing/ListQueryBuilder.php:197-206 | the parts are the `_`-segments of the token, with the first one stripped of its `[N]` suffix when it has one; the real name is their implosion; an index is recorded only for a first segment of the form `name[digits]` |
| Dql.ParseTokenSteps | src/Sulu/Component/Rest/Listing/ListQueryBuilder.php:197-206 | proof step, unfolding the definition: the parse step by step: the index match on the first segment decides between the stripped and the unchanged parts |
| Dql.PerformTokenFilters | src/Sulu/Component/Rest/Listing/ListQueryBuilder.php:202-206 | proof step, unfolding the definition: a candidate touches the relational filters only by recording its index under its real name |
| Dql.PerformSelectJoined | src/Sulu/Component/Rest/Listing/ListQueryBuilder.php:209-221 | proof step, unfolding the definition: a relation path appends generateJoins' joins and aliases and, when requested, selects its last two segments aliased by the real name |
| Dql.PerformSelectPlain | src/Sulu/Component/Rest/Listing/ListQueryBuilder.php:222-224 | proof step, unfolding the definition: any other candidate joins nothing and is selected on the root alias only when requested and a column name |
| Dql.OrderEntries | src/Sulu/Component/Rest/Listing/ListQueryBuilder.php:416-421 | one `prefix.column direction` entry per sort entry, in order |
| Dql.RenderJoinsAppend | src/Sulu/Component/Rest/Listing/ListQueryBuilder.php:212 | the join text of two join lists is the concatenation of their texts, as `.=` appends |
| Dql.PerformSelectAppendsJoins | src/Sulu/Component/Rest/Listing/ListQueryBuilder.php:212 | a candidate's effect on the joins is the same whatever joins came before it |
| Dql.ResolveStep | src/Sulu/Component/Rest/Listing/ListQueryBuilder.php:170-172 | one loop step of getSelectFrom applies performSelectFromField to the next candidate |
| Dql.PredicatesSnoc | src/Sulu/Component/Rest/Listing/ListQueryBuilder.php:356-382 | proof step, unfolding the definition: one more key adds an equality exactly when it is a where key and a search predicate exactly when it is a search field |
| Strings.Split | src/Sulu/Component/Rest/Listing/ListQueryBuilder.php:197 | `explode` gives at least one part, and no part holds the separator |
| Strings.ImplodeSplit | src/Sulu/Component/Rest/Listing/ListQueryBuilder.php:197-204 | imploding the exploded token gives the token back |
| Strings.SplitImplode | src/Sulu/Component/Rest/Listing/ListQueryBuilder.php:204 | exploding parts free of the separator gives the parts back |
| Strings.ParseIndexedSound | src/Sulu/Component/Rest/Listing/ListQueryBuilder.php:202 | a match of `^(.*)\[(\d+)\]$` splits the segment into a name and a non-empty digit string, closed by `]` at the end or before a final newline |
| Strings.ParseIndexedComplete | src/Sulu/Component/Rest/Listing/ListQueryBuilder.php:202 | every segment of the form `name[digits]` matches, with that name and index |
| Strings.Dedup | src/Sulu/Component/Rest/Listing/ListQueryBuilder.php:354 | `array_unique` keeps exactly the same members, without repetitions |
| Strings.KeepIn | src/Sulu/Component/Rest/Listing/ListQueryBuilder.php:368-371 | filtering by `in_array` keeps exactly the members found in the other list |
| Strings.DedupKeepPrefix | src/Sulu/Component/Rest/Listing/ListQueryBuilder.php:354-370 | the where keys among the deduplicated where keys and search fields are the deduplicated where keys, in their order |
| Strings.KeepInNoDup | src/Sulu/Component/Rest/Listing/ListQueryBuilder.php:354-381 | the search fields among the deduplicated keys are each search field once |
| Properties.AliasesAppend | src/Sulu/Component/Rest/Listing/ListQueryBuilder.php:277 | the aliases of two join lists are the aliases of each, in order |
| Properties.PerformSelectJoinsOnce | src/Sulu/Component/Rest/Listing/ListQueryBuilder.php:209-212 | one candidate keeps the known aliases equal to the starting aliases plus the emitted joins' aliases, without repetition |
| Properties.ResolveJoinsOnce | src/Sulu/Component/Rest/Listing/ListQueryBuilder.php:169-173 | the same holds over any list of candidates |
| Properties.FindJoinsOnce | src/Sulu/Component/Rest/Listing/ListQueryBuilder.php:158-173 | within one find the known aliases are the root alias followed by the alias of each emitted join, and no alias is joined twice |
| Properties.PerformSelectKeepsAliases | src/Sulu/Component/Rest/Listing/ListQueryBuilder.php:209-224 | a candidate never forgets a known alias |
| Properties.PerformSelectCovers | src/Sulu/Component/Rest/Listing/ListQueryBuilder.php:209-212 | after a relation path every segment but its last is a known alias |
| Properties.ResolveJoinsCover | src/Sulu/Component/Rest/Listing/ListQueryBuilder.php:169-173 | after the loop every segment but the last of every visited relation path is a known alias (the root alias or a joined one) |
| Properties.JoinsUpToShapeAt | src/Sulu/Component/Rest/Listing/ListQueryBuilder.php:270-280 | each emitted join is the join of one segment |
| Properties.NewJoinShape | src/Sulu/Component/Rest/Listing/ListQueryBuilder.php:266-283 | each join of one generateJoins call is the join of one segment of that path |
| Properties.AppendedJoinsShape | src/Sulu/Component/Rest/Listing/ListQueryBuilder.php:212 | the joins appended after earlier joins are joins of the new path's segments |
| Properties.PerformSelectJoinShape | src/Sulu/Component/Rest/Listing/ListQueryBuilder.php:209-212 | a candidate keeps the earlier joins and adds only joins of its own segments |
| Properties.ResolveJoinShape | src/Sulu/Component/Rest/Listing/ListQueryBuilder.php:169-173 | every join emitted over a list of candidates is the join of a segment of one of them |
| Properties.JoinAmongSnoc | src/Sulu/Component/Rest/Listing/ListQueryBuilder.php:169-173 | a join of an earlier candidate or of the last one is a join among all of them |
| Properties.FindJoins | src/Sulu/Component/Rest/Listing/ListQueryBuilder.php:156-186 | the joins of one find: no alias twice, every join is the join of a path segment of a candidate, and every segment but the last of a relation path among the candidates is a known alias (the root alias or a joined one) |
| Queries.AppendSelectExtends | src/Sulu/Component/Rest/Listing/ListQueryBuilder.php:234-240 | addToSelect keeps the old select as a prefix and makes it strictly longer |
| Queries.Eligible | src/Sulu/Component/Rest/Listing/ListQueryBuilder.php:209-224 | a candidate is selected when the raw token, index suffix included, is a requested field (lines 211 and 222) and it is a relation path (line 209) or a column name of the entity (line 222) |
| Queries.AnyEligible | src/Sulu/Component/Rest/Listing/ListQueryBuilder.php:169-173 | some candidate of the list is selected |
| Queries.PerformSelectSelect | src/Sulu/Component/Rest/Listing/ListQueryBuilder.php:209-224 | a candidate keeps the select as a prefix, and adds to it exactly when it is requested and is a relation path or a column name |
| Queries.AnyEligibleSnoc | src/Sulu/Component/Rest/Listing/ListQueryBuilder.php:169-173 | some candidate of a longer list is selected exactly when one of the earlier ones or the last is |
| Queries.ResolveSelect | src/Sulu/Component/Rest/Listing/ListQueryBuilder.php:169-173 | over a list of candidates the select keeps its start as a prefix, and grows exactly when some candidate is selected |
| Queries.IndexAnnotation | src/Sulu/Component/Rest/Listing/ListQueryBuilder.php:202-206 | a first segment `name[N]` is replaced by `name`, and `N` is recorded under the re-imploded token |
| Queries.NoIndexAnnotation | src/Sulu/Component/Rest/Listing/ListQueryBuilder.php:202-206 | any other token keeps its segments and leaves the relational filters alone |
| Queries.AnyAnnotatesSnoc | src/Sulu/Component/Rest/Listing/ListQueryBuilder.php:169-173 | some candidate of a longer list records a key exactly when an earlier one or the last does |
| Queries.Annotates | src/Sulu/Component/Rest/Listing/ListQueryBuilder.php:202-206 | a candidate records an index under `k` when its first segment carries one and its real name is `k` |
| Queries.AnyAnnotates | src/Sulu/Component/Rest/Listing/ListQueryBuilder.php:169-173 | some candidate of the list records an index under `k` |
| Queries.PerformSelectFilterKeys | src/Sulu/Component/Rest/Listing/ListQueryBuilder.php:202-206 | the filter keys after a candidate are the earlier keys plus the key it records |
| Queries.ResolveFilterKeys | src/Sulu/Component/Rest/Listing/ListQueryBuilder.php:169-173 | the filter keys after a list of candidates are the earlier keys plus those some candidate records |
| Queries.PerformSelectJoinsIndependent | src/Sulu/Component/Rest/Listing/ListQueryBuilder.php:209-221 | a candidate's joins and aliases depend only on the joins and aliases it starts from |
| Queries.ResolveJoinsIndependent | src/Sulu/Component/Rest/Listing/ListQueryBuilder.php:169-173 | the same over a list of candidates |
| Queries.FindJoinsIndependent | src/Sulu/Component/Rest/Listing/ListQueryBuilder.php:158-159 | because joins and aliases are reset, two finds with the same prefix emit the same joins, whatever state the builder carries |
| Queries.DefaultSelect | src/Sulu/Component/Rest/Listing/ListQueryBuilder.php:175-179 | outside count mode, on an empty select, find selects the root alias exactly when no candidate is selected, and otherwise the non-empty select it built |
| Queries.NoClauses | src/Sulu/Component/Rest/Listing/ListQueryBuilder.php:126-138 | with no filter, search or sorting the query is the SELECT/FROM/JOIN part followed by two spaces |
| Queries.EmptyListingQuery | src/Sulu/Component/Rest/Listing/ListQueryBuilder.php:175-185 | a fresh builder over `Contact` that asks for nothing queries `SELECT u`, then `FROM Contact u` and no clause |
| Queries.PerformSelectSettings | src/Sulu/Component/Rest/Listing/ListQueryBuilder.php:194-225 | proof step, unfolding the definition: a candidate reads only the association names, the requested fields and the column names |
| Queries.ResolveIgnoresSorting | src/Sulu/Component/Rest/Listing/ListQueryBuilder.php:156-186 | getSelectFrom does not read the sort map |
| Queries.CountMode | src/Sulu/Component/Rest/Listing/ListQueryBuilder.php:126-186 | in count mode the select is the count select, there is no ORDER BY, and the query does not depend on the sort map |
| Queries.CountRepeatable | src/Sulu/Component/Rest/Listing/ListQueryBuilder.php:126-147 | in count mode a second find returns the same query and stays in count mode |
| Queries.SelectAccumulates | src/Sulu/Component/Rest/Listing/ListQueryBuilder.php:156-186 | outside count mode, when some candidate is selected, a second find extends the previous select and returns a different query |
| Queries.FilterKeys | src/Sulu/Component/Rest/Listing/ListQueryBuilder.php:156-206 | the relational filters are never reset: after find their keys are the earlier keys plus those recorded by the candidates |
| Queries.LastIndex | src/Sulu/Component/Rest/Listing/ListQueryBuilder.php:205 | the index recorded under `k` by the last candidate of the list that records one there, if any |
| Queries.ResolveFilterValues | src/Sulu/Component/Rest/Listing/ListQueryBuilder.php:169-173 | after a list of candidates each key holds the index of the last candidate recorded under it, because line 205 overwrites; a key no candidate writes keeps its value |
| Queries.FilterValues | src/Sulu/Component/Rest/Listing/ListQueryBuilder.php:156-206 | after find each relational filter holds the index of the last candidate recorded under its key, or else the value carried over from earlier calls |
| Queries.SplitTwo | src/Sulu/Component/Rest/Listing/ListQueryBuilder.php:197 | `a_b` explodes into `a` and `b` |
| Queries.NoBracketNoIndex | src/Sulu/Component/Rest/Listing/ListQueryBuilder.php:202 | a segment without `[` carries no index |
| Queries.IndexedToken | src/Sulu/Component/Rest/Listing/ListQueryBuilder.php:197-206 | `name[N]_last` parses to the parts `name`, `last`, the real name `name_last` and the index `N` |
| Queries.IndexedPathSelect | src/Sulu/Component/Rest/Listing/ListQueryBuilder.php:202-221 | an indexed relation path records its index under the stripped name, and it is selected (aliased by the stripped name) only when the token as written is requested |
| Queries.LaterIndexWins | src/Sulu/Component/Rest/Listing/ListQueryBuilder.php:202-206 | `name[i]_last` followed by `name[j]_last` both record under `name_last`, and the filter ends up `j` |
| Queries.RepeatedFieldSelectedTwice | src/Sulu/Component/Rest/Listing/ListQueryBuilder.php:162-224 | a requested column met twice among the candidates is selected twice |
| Queries.ThreeSegments | src/Sulu/Component/Rest/Listing/ListQueryBuilder.php:197-206 | `a_b_c` without a bracket in `a` parses to three parts and no index |
| Queries.FirstPathJoins | src/Sulu/Component/Rest/Listing/ListQueryBuilder.php:266-283 | the first path `a_b_x` joins `a` under the root alias and `b` under `a` |
| Queries.FreshPathJoins | src/Sulu/Component/Rest/Listing/ListQueryBuilder.php:266-283 | generateJoins on `a_b_x` with only the root alias known emits those two joins |
| Queries.LaterPathJoins | src/Sulu/Component/Rest/Listing/ListQueryBuilder.php:266-283 | a later path `a_b_y` finds `a` and `b` joined and joins nothing |
| Queries.KnownPathJoins | src/Sulu/Component/Rest/Listing/ListQueryBuilder.php:266-283 | generateJoins on a path whose segments are known emits nothing |
| Queries.SiblingPaths | src/Sulu/Component/Rest/Listing/ListQueryBuilder.php:156-186 | the candidates `a_b_x` and `a_b_y` give exactly the two joins of `a` and `b` |
| Queries.SiblingPathsExample | src/Sulu/Component/Rest/Listing/ListQueryBuilder.php:156-186 | the concrete case, with association `a` and root alias `u` |
| Clauses.ColumnOfPlainKey | src/Sulu/Component/Rest/Listing/ListQueryBuilder.php:357-360 | a key without `_` is the column of the root alias |
| Clauses.ColumnOfPath | src/Sulu/Component/Rest/Listing/ListQueryBuilder.php:357-365 | a key of two or more segments is the last segment on the alias of the second-to-last |
| Clauses.EqualitiesOfKept | src/Sulu/Component/Rest/Listing/ListQueryBuilder.php:356-370 | one equality `column = value` per visited where key, in order |
| Clauses.SearchPredicateShape | src/Sulu/Component/Rest/Listing/ListQueryBuilder.php:371-380 | a text search field gives `column LIKE :search`, any other `column = :strictSearch` |
| Clauses.SearchesOfKept | src/Sulu/Component/Rest/Listing/ListQueryBuilder.php:356-381 | one search predicate per visited search field, in order |
| Clauses.WhereEqualities | src/Sulu/Component/Rest/Listing/ListQueryBuilder.php:349-370 | the equalities are one per distinct where key, in the where map's order, whatever the search fields |
| Clauses.SearchedOnce | src/Sulu/Component/Rest/Listing/ListQueryBuilder.php:354-371 | every search field is searched exactly once, also when it is a where key too or listed twice |
| Clauses.ImplodeNonEmpty | src/Sulu/Component/Rest/Listing/ListQueryBuilder.php:386 | imploding pieces whose last one is not empty is not empty |
| Clauses.CombineConjuncts | src/Sulu/Component/Rest/Listing/ListQueryBuilder.php:385-394 | the concatenation step is the AND of the equalities and the parenthesised OR of the searches |
| Clauses.OnlySearches | src/Sulu/Component/Rest/Listing/ListQueryBuilder.php:389-394 | without equalities the concatenation is the search group alone |
| Clauses.WherePartsNonEmpty | src/Sulu/Component/Rest/Listing/ListQueryBuilder.php:345-381 | a where entry gives a non-empty equality text, a search field a search predicate |
| Clauses.WhereShape | src/Sulu/Component/Rest/Listing/ListQueryBuilder.php:341-400 | the WHERE clause is empty exactly when there is no where entry and no search field, and is otherwise `WHERE ` followed by the conjuncts joined with AND |
| Clauses.OrderByShape | src/Sulu/Component/Rest/Listing/ListQueryBuilder.php:409-427 | there is an ORDER BY exactly when there is a sort entry, listing `prefix.column direction` per entry in order |
| Clauses.OrderByExample | src/Sulu/Component/Rest/Listing/ListQueryBuilder.php:409-427 | sorting by `lastName ASC`, `id DESC` gives `ORDER BY u.lastName ASC, u.id DESC`, in that order |

## Left out

- The relational filters are a Dafny `map`, so the insertion order of
  the PHP array that `getRelationalFilters` returns is not modelled. Its
  keys and values are.
- The sort map and the filter map are sequences of pairs, in the PHP
  array's order. PHP's merging of duplicate keys is taken to have happened
  before the builder sees them. Integer keys are not modelled.
- PHP's loose comparisons are modelled as plain string equality. This
  covers `in_array` on numeric strings, `null != $this->fields` and
  `true != $this->countQuery`.
- A `$fields` argument that is not an array becomes `[]` (line 113). The
  model takes a sequence, so that coercion is not modelled.
- The uninitialised `$select` and `$countQuery` of a new builder are
  modelled as `""` and `false`, which is how PHP's `strlen`, `.=` and
  `!=` treat them.
- The PCRE engine is replaced by explicit parsing of `name[digits]`,
  including `$` matching before a final newline. Other regex features are
  not involved.
- Executing the DQL, and escaping the filter values (line 367), belong to
  Doctrine and the caller. The where values are pasted verbatim, as in the
  source.
- The whitespace inside the `sprintf` templates is two constants,
  `LineBreak` and `JoinsBreak`. Their exact indentation follows the
  source file.
- `Builder.ListQueryBuilder.GetRelationalFilters` is a getter and has no
  partner beyond `Queries.FilterKeys`.
- A literal example with an indexed token and a literal WHERE example are
  not included. The general lemmas `Queries.IndexedToken`,
  `Queries.IndexedPathSelect` and `Clauses.WhereShape` state those cases
  for arbitrary strings.

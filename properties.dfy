/** What the builder promises about the queries it produces: joins emitted
    once and only for relation paths, which candidates reach the select,
    the index annotation, count mode, the state one call of find leaves
    to the next, and the shape of the WHERE and ORDER BY clauses. */
module Properties {
  import opened Strings
  import opened Dql

  // ---------------------------------------------------------------------
  // Joins within one call of find
  // ---------------------------------------------------------------------

  lemma {:induction false} AliasesAppend(a: seq<Join>, b: seq<Join>)
    ensures Aliases(a + b) == Aliases(a) + Aliases(b)
  {
    var l := Aliases(a + b);
    var r := Aliases(a) + Aliases(b);
    assert |l| == |r|;
    forall k | 0 <= k < |l|
      ensures l[k] == r[k]
    {
      if k < |a| {
        assert (a + b)[k] == a[k];
      } else {
        assert (a + b)[k] == b[k - |a|];
      }
    }
  }

  /** The alias list of a pass: the aliases known at its start followed by
      the alias of every join emitted, none of them twice. */
  predicate JoinedOnce(known: seq<string>, p: Pass) {
    p.prefixes == known + Aliases(p.joins) && NoDup(p.prefixes)
  }

  lemma PerformSelectJoinsOnce(s: Listing, prefix: string, st: Pass, field: string, known: seq<string>)
    requires JoinedOnce(known, st)
    ensures JoinedOnce(known, PerformSelect(s, prefix, st, field))
  {
    var t := ParseToken(field);
    if IsRelationPath(s.associationNames, t) {
      PerformSelectJoined(s, prefix, st, field, t);
      var js := NewJoins(t.parts, prefix, st.prefixes);
      JoinsUpToOnce(t.parts, prefix, st.prefixes, JoinSteps(t.parts));
      AliasesAppend(st.joins, js);
      AppendAssoc(known, Aliases(st.joins), Aliases(js));
    } else {
      PerformSelectPlain(s, prefix, st, field, t);
    }
  }

  lemma {:induction false} ResolveJoinsOnce(s: Listing, prefix: string, st: Pass, fields: seq<string>, known: seq<string>)
    requires JoinedOnce(known, st)
    ensures JoinedOnce(known, Resolve(s, prefix, st, fields))
    decreases |fields|
  {
    if |fields| > 0 {
      ResolveJoinsOnce(s, prefix, st, fields[..|fields| - 1], known);
      PerformSelectJoinsOnce(s, prefix, Resolve(s, prefix, st, fields[..|fields| - 1]), fields[|fields| - 1], known);
    }
  }

  /** Within one find every alias is joined at most once, and the root
      alias never: the alias list is the root alias followed by the alias
      of each emitted join, without repetition. */
  lemma FindJoinsOnce(s: Listing, prefix: string, c: Carry)
    ensures var p := ResolveAll(s, prefix, c);
            && p.prefixes == [prefix] + Aliases(p.joins)
            && NoDup(p.prefixes)
  {
    var st := Pass([], [prefix], c.select, c.filters);
    assert JoinedOnce([prefix], st) by {
      assert [prefix] + Aliases([]) == [prefix];
    }
    ResolveJoinsOnce(s, prefix, st, Candidates(s), [prefix]);
  }

  /** Segment i of a relation path `field`, all segments but the last. */
  predicate JoinedSegment(s: Listing, field: string, i: int) {
    var t := ParseToken(field);
    IsRelationPath(s.associationNames, t) && 0 <= i < |t.parts| - 1
  }

  /** A pass never forgets an alias. */
  lemma PerformSelectKeepsAliases(s: Listing, prefix: string, st: Pass, field: string)
    ensures var p := PerformSelect(s, prefix, st, field);
            forall a :: a in st.prefixes ==> a in p.prefixes
  {
    var t := ParseToken(field);
    if IsRelationPath(s.associationNames, t) {
      PerformSelectJoined(s, prefix, st, field, t);
    } else {
      PerformSelectPlain(s, prefix, st, field, t);
    }
  }

  /** The segments but the last of a relation path are joined by the time
      the path is visited. */
  lemma PerformSelectCovers(s: Listing, prefix: string, st: Pass, field: string)
    ensures var p := PerformSelect(s, prefix, st, field);
            forall i :: JoinedSegment(s, field, i) ==> ParseToken(field).parts[i] in p.prefixes
  {
    var t := ParseToken(field);
    if IsRelationPath(s.associationNames, t) {
      PerformSelectJoined(s, prefix, st, field, t);
      JoinsUpToCover(t.parts, prefix, st.prefixes, JoinSteps(t.parts));
    }
  }

  /** Every segment but the last of every relation path visited is joined,
      in this call or before it. */
  lemma {:induction false} ResolveJoinsCover(s: Listing, prefix: string, st: Pass, fields: seq<string>)
    ensures forall f, i :: f in fields && JoinedSegment(s, f, i) ==>
              ParseToken(f).parts[i] in Resolve(s, prefix, st, fields).prefixes
    decreases |fields|
  {
    if |fields| > 0 {
      var init := fields[..|fields| - 1];
      var last := fields[|fields| - 1];
      var prev := Resolve(s, prefix, st, init);
      var p := Resolve(s, prefix, st, fields);
      assert p == PerformSelect(s, prefix, prev, last);
      ResolveJoinsCover(s, prefix, st, init);
      PerformSelectKeepsAliases(s, prefix, prev, last);
      PerformSelectCovers(s, prefix, prev, last);
      forall f, i | f in fields && JoinedSegment(s, f, i)
        ensures ParseToken(f).parts[i] in p.prefixes
      {
        if f != last {
          assert f in init by {
            assert fields == init + [last];
          }
          assert ParseToken(f).parts[i] in prev.prefixes;
        }
      }
    }
  }

  /** The join emitted for segment i of the relation path `field`: parent
      the root alias for the first segment and the previous segment
      otherwise, the segment as association and as alias. */
  predicate JoinOf(s: Listing, prefix: string, field: string, i: int, j: Join) {
    var t := ParseToken(field);
    JoinedSegment(s, field, i) && j == Join(JoinParent(t.parts, prefix, i), t.parts[i], t.parts[i])
  }

  /** `j` is the join of some segment of the relation path `field`. */
  ghost predicate JoinFor(s: Listing, prefix: string, field: string, j: Join) {
    exists i :: JoinOf(s, prefix, field, i, j)
  }

  /** `j` is the join of some segment of one of the relation paths in `fields`. */
  ghost predicate JoinAmong(s: Listing, prefix: string, fields: seq<string>, j: Join) {
    exists f :: f in fields && JoinFor(s, prefix, f, j)
  }

  lemma JoinsUpToShapeAt(parts: seq<string>, prefix: string, known: seq<string>, m: int)
    requires 0 <= m < |JoinsUpTo(parts, prefix, known, JoinSteps(parts))|
    ensures exists i :: 0 <= i < |parts| - 1
                        && JoinsUpTo(parts, prefix, known, JoinSteps(parts))[m] == Join(JoinParent(parts, prefix, i), parts[i], parts[i])
  {
    JoinsUpToShape(parts, prefix, known, JoinSteps(parts));
  }

  /** Join m of one call of generateJoins is the join of a segment. */
  lemma NewJoinShape(parts: seq<string>, prefix: string, known: seq<string>, m: int)
    requires 0 <= m < |NewJoins(parts, prefix, known)|
    ensures exists i :: 0 <= i < |parts| - 1
                        && NewJoins(parts, prefix, known)[m] == Join(JoinParent(parts, prefix, i), parts[i], parts[i])
  {
    var js := JoinsUpTo(parts, prefix, known, JoinSteps(parts));
    assert NewJoins(parts, prefix, known) == js;
    assert m < |js|;
    JoinsUpToShapeAt(parts, prefix, known, m);
  }

  /** The joins generateJoins appends after `base` are joins of segments
      of `parts`. */
  lemma AppendedJoinsShape(parts: seq<string>, prefix: string, known: seq<string>, base: seq<Join>)
    ensures var js := base + NewJoins(parts, prefix, known);
            forall k :: |base| <= k < |js| ==>
              exists i :: 0 <= i < |parts| - 1 && js[k] == Join(JoinParent(parts, prefix, i), parts[i], parts[i])
  {
    var added := NewJoins(parts, prefix, known);
    var js := base + added;
    forall k | |base| <= k < |js|
      ensures exists i :: 0 <= i < |parts| - 1 && js[k] == Join(JoinParent(parts, prefix, i), parts[i], parts[i])
    {
      NewJoinShape(parts, prefix, known, k - |base|);
      assert js[k] == added[k - |base|];
    }
  }

  /** One candidate keeps the joins before it and appends only joins of
      its own segments. */
  lemma PerformSelectJoinShape(s: Listing, prefix: string, st: Pass, field: string)
    ensures var p := PerformSelect(s, prefix, st, field);
            && |st.joins| <= |p.joins|
            && p.joins[..|st.joins|] == st.joins
            && forall k :: |st.joins| <= k < |p.joins| ==> JoinFor(s, prefix, field, p.joins[k])
  {
    var t := ParseToken(field);
    var p := PerformSelect(s, prefix, st, field);
    if IsRelationPath(s.associationNames, t) {
      PerformSelectJoined(s, prefix, st, field, t);
      assert p.joins == st.joins + NewJoins(t.parts, prefix, st.prefixes);
      assert |st.joins| <= |p.joins|;
      assert p.joins[..|st.joins|] == st.joins;
      AppendedJoinsShape(t.parts, prefix, st.prefixes, st.joins);
      forall k | |st.joins| <= k < |p.joins|
        ensures JoinFor(s, prefix, field, p.joins[k])
      {
        var i :| 0 <= i < |t.parts| - 1 && p.joins[k] == Join(JoinParent(t.parts, prefix, i), t.parts[i], t.parts[i]);
        assert JoinOf(s, prefix, field, i, p.joins[k]);
      }
    } else {
      PerformSelectPlain(s, prefix, st, field, t);
    }
  }

  /** Every join emitted is the join of a segment of some relation path visited. */
  lemma {:induction false} ResolveJoinShape(s: Listing, prefix: string, st: Pass, fields: seq<string>)
    requires st.joins == []
    ensures forall k :: 0 <= k < |Resolve(s, prefix, st, fields).joins| ==>
              JoinAmong(s, prefix, fields, Resolve(s, prefix, st, fields).joins[k])
    decreases |fields|
  {
    if |fields| > 0 {
      var init := fields[..|fields| - 1];
      var last := fields[|fields| - 1];
      var prev := Resolve(s, prefix, st, init);
      var p := Resolve(s, prefix, st, fields);
      assert p == PerformSelect(s, prefix, prev, last);
      ResolveJoinShape(s, prefix, st, init);
      PerformSelectJoinShape(s, prefix, prev, last);
      forall k | 0 <= k < |p.joins|
        ensures JoinAmong(s, prefix, fields, p.joins[k])
      {
        if k < |prev.joins| {
          assert p.joins[k] == p.joins[..|prev.joins|][k];
          JoinAmongSnoc(s, prefix, fields, p.joins[k]);
        } else {
          JoinAmongSnoc(s, prefix, fields, p.joins[k]);
        }
      }
    }
  }

  /** A join among the paths of a prefix of `fields`, or of its last
      path, is among the paths of `fields`. */
  lemma JoinAmongSnoc(s: Listing, prefix: string, fields: seq<string>, j: Join)
    requires |fields| > 0
    requires JoinAmong(s, prefix, fields[..|fields| - 1], j) || JoinFor(s, prefix, fields[|fields| - 1], j)
    ensures JoinAmong(s, prefix, fields, j)
  {
    if JoinAmong(s, prefix, fields[..|fields| - 1], j) {
      var f :| f in fields[..|fields| - 1] && JoinFor(s, prefix, f, j);
      assert f in fields;
    } else {
      assert fields[|fields| - 1] in fields;
    }
  }

  /** The joins of one find: exactly the segments of the relation paths
      among the candidates, each joined once, each shaped as JoinOf says. */
  lemma FindJoins(s: Listing, prefix: string, c: Carry)
    ensures var p := ResolveAll(s, prefix, c);
            && NoDup(p.prefixes)
            && (forall k :: 0 <= k < |p.joins| ==> JoinAmong(s, prefix, Candidates(s), p.joins[k]))
            && (forall f, i :: f in Candidates(s) && JoinedSegment(s, f, i) ==>
                  ParseToken(f).parts[i] in p.prefixes)
  {
    var st := Pass([], [prefix], c.select, c.filters);
    assert ResolveAll(s, prefix, c) == Resolve(s, prefix, st, Candidates(s));
    FindJoinsOnce(s, prefix, c);
    ResolveJoinShape(s, prefix, st, Candidates(s));
    ResolveJoinsCover(s, prefix, st, Candidates(s));
    var p := ResolveAll(s, prefix, c);
    assert forall k :: 0 <= k < |p.joins| ==> JoinAmong(s, prefix, Candidates(s), p.joins[k]);
    assert forall f, i :: f in Candidates(s) && JoinedSegment(s, f, i) ==> ParseToken(f).parts[i] in p.prefixes;
  }
}

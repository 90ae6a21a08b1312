/** String and list helpers standing in for the PHP library calls the builder
    relies on: explode, implode, the `[digits]` suffix pattern and array_unique. */
module Strings {

  datatype Option<T> = None | Some(value: T)

  predicate NoDup<T(==)>(s: seq<T>) {
    forall i, j :: 0 <= i < j < |s| ==> s[i] != s[j]
  }

  /** Concatenation is associative; stated once so that proofs about long
      concatenations can rebracket them without comparing characters. */
  lemma AppendAssoc<T>(a: seq<T>, b: seq<T>, c: seq<T>)
    ensures (a + b) + c == a + (b + c)
  {
  }

  /** Some element of a non-empty sequence has property `p` exactly when
      some element before the last has it or the last one has it. */
  lemma ExistsSnoc<T>(xs: seq<T>, p: T -> bool)
    requires |xs| > 0
    ensures (exists x :: x in xs && p(x)) <==> (exists x :: x in xs[..|xs| - 1] && p(x)) || p(xs[|xs| - 1])
  {
    var n := |xs| - 1;
    if p(xs[n]) {
      assert xs[n] in xs;
    }
    if exists x :: x in xs[..n] && p(x) {
      var x :| x in xs[..n] && p(x);
      var i :| 0 <= i < n && xs[..n][i] == x;
      assert xs[i] == x;
    }
    if exists x :: x in xs && p(x) {
      var x :| x in xs && p(x);
      var i :| 0 <= i <= n && xs[i] == x;
      if i < n {
        assert xs[..n][i] == x;
      }
    }
  }

  // ---------------------------------------------------------------------
  // explode / implode
  // ---------------------------------------------------------------------

  /** explode(sep, s): the pieces of `s` between occurrences of `sep`.
      Like PHP, the result is never empty (explode of "" is [""]). */
  function Split(s: string, sep: char): (parts: seq<string>)
    ensures |parts| >= 1
    ensures forall i :: 0 <= i < |parts| ==> sep !in parts[i]
    decreases |s|
  {
    if |s| == 0 then [""]
    else
      var rest := Split(s[1..], sep);
      if s[0] == sep then [""] + rest
      else [[s[0]] + rest[0]] + rest[1..]
  }

  /** implode(sep, pieces), built left to right as the loops that append
      with a separator do. */
  function Implode(sep: string, pieces: seq<string>): string
  {
    if |pieces| == 0 then ""
    else if |pieces| == 1 then pieces[0]
    else Implode(sep, pieces[..|pieces| - 1]) + sep + pieces[|pieces| - 1]
  }

  /** Implode seen from the front: the first piece, then the rest. */
  lemma {:induction false} ImplodeCons(sep: string, a: string, rest: seq<string>)
    requires |rest| >= 1
    ensures Implode(sep, [a] + rest) == a + sep + Implode(sep, rest)
    decreases |rest|
  {
    if |rest| == 1 {
      assert ([a] + rest)[..1] == [a];
    } else {
      var last := rest[|rest| - 1];
      assert ([a] + rest)[..|rest|] == [a] + rest[..|rest| - 1];
      ImplodeCons(sep, a, rest[..|rest| - 1]);
    }
  }

  /** Appending a piece appends the separator and the piece. */
  lemma ImplodeSnoc(sep: string, pieces: seq<string>, x: string)
    requires |pieces| >= 1
    ensures Implode(sep, pieces + [x]) == Implode(sep, pieces) + sep + x
  {
    assert (pieces + [x])[..|pieces|] == pieces;
  }

  /** Splitting a string that starts with a separator-free piece. */
  lemma {:induction false} SplitPrefix(a: string, sep: char, t: string)
    requires sep !in a
    ensures Split(a + [sep] + t, sep) == [a] + Split(t, sep)
    decreases |a|
  {
    if |a| == 0 {
      assert a + [sep] + t == [sep] + t;
      assert ([sep] + t)[1..] == t;
    } else {
      assert (a + [sep] + t)[1..] == a[1..] + [sep] + t;
      SplitPrefix(a[1..], sep, t);
      assert [a[0]] + a[1..] == a;
    }
  }

  /** A separator-free string splits into itself. */
  lemma {:induction false} SplitNoSep(a: string, sep: char)
    requires sep !in a
    ensures Split(a, sep) == [a]
    decreases |a|
  {
    if |a| > 0 {
      SplitNoSep(a[1..], sep);
      assert [a[0]] + a[1..] == a;
    }
  }

  /** Extending the first piece extends the imploded string at the front. */
  lemma ImplodeExtendHead(sep: string, c: string, pieces: seq<string>)
    requires |pieces| >= 1
    ensures Implode(sep, [c + pieces[0]] + pieces[1..]) == c + Implode(sep, pieces)
  {
    if |pieces| == 1 {
      assert [c + pieces[0]] + pieces[1..] == [c + pieces[0]];
    } else {
      ImplodeCons(sep, c + pieces[0], pieces[1..]);
      ImplodeCons(sep, pieces[0], pieces[1..]);
      assert pieces == [pieces[0]] + pieces[1..];
    }
  }

  /** Round trip one way: imploding the pieces of explode gives the string back. */
  lemma {:induction false} ImplodeSplit(s: string, sep: char)
    ensures Implode([sep], Split(s, sep)) == s
    decreases |s|
  {
    if |s| > 0 {
      var rest := Split(s[1..], sep);
      ImplodeSplit(s[1..], sep);
      if s[0] == sep {
        ImplodeCons([sep], "", rest);
      } else {
        ImplodeExtendHead([sep], [s[0]], rest);
      }
      assert s == [s[0]] + s[1..];
    }
  }

  /** Round trip the other way: separator-free pieces survive implode then explode. */
  lemma {:induction false} SplitImplode(parts: seq<string>, sep: char)
    requires |parts| >= 1
    requires forall i :: 0 <= i < |parts| ==> sep !in parts[i]
    ensures Split(Implode([sep], parts), sep) == parts
    decreases |parts|
  {
    if |parts| == 1 {
      SplitNoSep(parts[0], sep);
    } else {
      var rest := parts[1..];
      assert parts == [parts[0]] + rest;
      ImplodeCons([sep], parts[0], rest);
      SplitImplode(rest, sep);
      SplitPrefix(parts[0], sep, Implode([sep], rest));
    }
  }

  // ---------------------------------------------------------------------
  // The pattern /^(.*)\[(\d+)\]$/
  // ---------------------------------------------------------------------

  predicate IsDigit(c: char) { '0' <= c <= '9' }

  predicate IsDigits(s: string) {
    forall i :: 0 <= i < |s| ==> IsDigit(s[i])
  }

  /** The two capture groups of a successful match: the text before the
      brackets and the digits between them. */
  datatype Indexed = Indexed(name: string, index: string)

  /** What a match means: `s` is `name[index]`, optionally followed by one
      final newline (PCRE's `$` also matches just before it); `index` is one
      or more ASCII digits and `name` holds no newline (`.` does not match one). */
  predicate IndexedForm(s: string, name: string, index: string) {
    && |index| > 0
    && IsDigits(index)
    && '\n' !in name
    && (s == name + "[" + index + "]" || s == name + "[" + index + "]\n")
  }

  /** Number of ASCII digits at the end of `s`. */
  function TrailingDigits(s: string): (n: nat)
    ensures n <= |s|
    ensures IsDigits(s[|s| - n..])
    ensures n < |s| ==> !IsDigit(s[|s| - n - 1])
  {
    if |s| == 0 || !IsDigit(s[|s| - 1]) then 0
    else TrailingDigits(s[..|s| - 1]) + 1
  }

  /** The subject without one final newline: PCRE's `$` also matches just
      before a final "\n". */
  function StripNewline(s: string): string {
    if |s| > 0 && s[|s| - 1] == '\n' then s[..|s| - 1] else s
  }

  /** The match on the subject once a final newline is dropped:
      `name[digits]`, where `name` holds no newline. */
  function ParseBracketed(body: string): Option<Indexed> {
    if |body| == 0 || body[|body| - 1] != ']' then None
    else
      var inner := body[..|body| - 1];
      var k := TrailingDigits(inner);
      if k == 0 || |inner| < k + 1 || inner[|inner| - k - 1] != '[' then None
      else
        var name := inner[..|inner| - k - 1];
        if '\n' in name then None
        else Some(Indexed(name, inner[|inner| - k..]))
  }

  /** preg_match('/^(.*)\[(\d+)\]$/', s), as explicit parsing. */
  function ParseIndexed(s: string): Option<Indexed> {
    ParseBracketed(StripNewline(s))
  }

  /** A string is its prefix, one character and the rest. */
  lemma Around(s: string, j: nat)
    requires j < |s|
    ensures s == s[..j] + [s[j]] + s[j + 1..]
  {
  }

  lemma BracketedSound(body: string)
    ensures var m := ParseBracketed(body);
            m.Some? ==> && |m.value.index| > 0 && IsDigits(m.value.index) && '\n' !in m.value.name
                        && body == m.value.name + "[" + m.value.index + "]"
  {
    if ParseBracketed(body).Some? {
      var inner := body[..|body| - 1];
      var k := TrailingDigits(inner);
      var j := |inner| - k - 1;
      var name := inner[..j];
      var index := inner[j + 1..];
      assert ParseBracketed(body) == Some(Indexed(name, index));
      Around(inner, j);
      assert inner == name + "[" + index;
      Around(body, |body| - 1);
      assert body == inner + "]";
    }
  }

  /** Every match found has the meaning of the pattern. */
  lemma ParseIndexedSound(s: string)
    ensures ParseIndexed(s).Some? ==>
              IndexedForm(s, ParseIndexed(s).value.name, ParseIndexed(s).value.index)
  {
    var body := StripNewline(s);
    BracketedSound(body);
    if |s| > 0 && s[|s| - 1] == '\n' {
      Around(s, |s| - 1);
      assert s == body + "\n";
    }
  }

  /** The digits after a `[` are exactly the trailing digits. */
  lemma {:induction false} TrailingDigitsAfterBracket(name: string, index: string)
    requires IsDigits(index)
    ensures TrailingDigits(name + "[" + index) == |index|
    decreases |index|
  {
    var s := name + "[" + index;
    if |index| == 0 {
      assert s[|s| - 1] == '[';
    } else {
      assert s[..|s| - 1] == name + "[" + index[..|index| - 1];
      TrailingDigitsAfterBracket(name, index[..|index| - 1]);
    }
  }

  lemma BracketedComplete(name: string, index: string)
    requires |index| > 0 && IsDigits(index) && '\n' !in name
    ensures ParseBracketed(name + "[" + index + "]") == Some(Indexed(name, index))
  {
    var inner := name + "[" + index;
    var body := inner + "]";
    assert body[..|body| - 1] == inner;
    TrailingDigitsAfterBracket(name, index);
    assert inner[..|inner| - |index| - 1] == name;
    assert inner[|inner| - |index|..] == index;
  }

  /** Every string of the pattern's form is matched, with those groups. */
  lemma ParseIndexedComplete(s: string, name: string, index: string)
    requires IndexedForm(s, name, index)
    ensures ParseIndexed(s) == Some(Indexed(name, index))
  {
    var body := name + "[" + index + "]";
    if s == body + "\n" {
      assert s[..|s| - 1] == body;
    }
    assert StripNewline(s) == body;
    BracketedComplete(name, index);
  }

  // ---------------------------------------------------------------------
  // array_unique and order-preserving filters
  // ---------------------------------------------------------------------

  /** array_unique: the first occurrence of each element, in order. */
  function Dedup(s: seq<string>): (r: seq<string>)
    ensures forall x :: x in r <==> x in s
    ensures NoDup(r)
  {
    if |s| == 0 then []
    else
      var d := Dedup(s[..|s| - 1]);
      if s[|s| - 1] in d then d else d + [s[|s| - 1]]
  }

  /** The elements of `s` that occur in `keep`, in order. */
  function KeepIn(s: seq<string>, keep: seq<string>): (r: seq<string>)
    ensures forall x :: x in r <==> x in s && x in keep
  {
    if |s| == 0 then []
    else KeepIn(s[..|s| - 1], keep) + (if s[|s| - 1] in keep then [s[|s| - 1]] else [])
  }

  lemma {:induction false} KeepInAppend(a: seq<string>, b: seq<string>, keep: seq<string>)
    ensures KeepIn(a + b, keep) == KeepIn(a, keep) + KeepIn(b, keep)
    decreases |b|
  {
    if |b| == 0 {
      assert a + b == a;
    } else {
      assert (a + b)[..|a + b| - 1] == a + b[..|b| - 1];
      KeepInAppend(a, b[..|b| - 1], keep);
    }
  }

  lemma DedupSnoc(s: seq<string>, x: string)
    ensures Dedup(s + [x]) == if x in s then Dedup(s) else Dedup(s) + [x]
  {
    assert (s + [x])[..|s|] == s;
  }

  lemma KeepInSnoc(s: seq<string>, x: string, keep: seq<string>)
    ensures KeepIn(s + [x], keep) == KeepIn(s, keep) + (if x in keep then [x] else [])
  {
    assert (s + [x])[..|s|] == s;
  }

  /** Filtering commutes with array_unique. */
  lemma {:induction false} KeepInDedup(s: seq<string>, keep: seq<string>)
    ensures KeepIn(Dedup(s), keep) == Dedup(KeepIn(s, keep))
    decreases |s|
  {
    if |s| > 0 {
      var init, x := s[..|s| - 1], s[|s| - 1];
      assert s == init + [x];
      KeepInDedup(init, keep);
      var k := KeepIn(init, keep);
      KeepInSnoc(init, x, keep);
      DedupSnoc(init, x);
      if x in init {
        assert Dedup(s) == Dedup(init);
        if x in keep {
          assert x in k;
          DedupSnoc(k, x);
          assert KeepIn(s, keep) == k + [x];
        } else {
          assert KeepIn(s, keep) == k;
        }
      } else {
        assert Dedup(s) == Dedup(init) + [x];
        KeepInSnoc(Dedup(init), x, keep);
        if x in keep {
          assert x !in k;
          DedupSnoc(k, x);
          assert KeepIn(s, keep) == k + [x];
        } else {
          assert KeepIn(s, keep) == k;
        }
      }
    }
  }

  /** Filtering a sequence by itself leaves it unchanged. */
  lemma {:induction false} KeepInSelf(s: seq<string>, keep: seq<string>)
    requires forall x :: x in s ==> x in keep
    ensures KeepIn(s, keep) == s
    decreases |s|
  {
    if |s| > 0 {
      KeepInSelf(s[..|s| - 1], keep);
      assert s[..|s| - 1] + [s[|s| - 1]] == s;
    }
  }

  /** Repeats of elements already present do not change array_unique. */
  lemma {:induction false} DedupRepeats(a: seq<string>, c: seq<string>)
    requires forall x :: x in c ==> x in a
    ensures Dedup(a + c) == Dedup(a)
    decreases |c|
  {
    if |c| == 0 {
      assert a + c == a;
    } else {
      assert (a + c)[..|a + c| - 1] == a + c[..|c| - 1];
      DedupRepeats(a, c[..|c| - 1]);
    }
  }

  /** The keys of `a` keep the order array_unique gives them even when more
      keys are appended after them. */
  lemma DedupKeepPrefix(a: seq<string>, b: seq<string>)
    ensures KeepIn(Dedup(a + b), a) == Dedup(a)
  {
    KeepInDedup(a + b, a);
    KeepInAppend(a, b, a);
    KeepInSelf(a, a);
    DedupRepeats(a, KeepIn(b, a));
  }

  /** Filtering a duplicate-free sequence keeps it duplicate-free. */
  lemma {:induction false} KeepInNoDup(s: seq<string>, keep: seq<string>)
    requires NoDup(s)
    ensures NoDup(KeepIn(s, keep))
    decreases |s|
  {
    if |s| > 0 {
      KeepInNoDup(s[..|s| - 1], keep);
      assert s[|s| - 1] !in s[..|s| - 1];
    }
  }
}

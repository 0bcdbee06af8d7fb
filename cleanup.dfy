/** Metric-name normalisation of the metrics adapter: `CleanUpString` splits a
    name into the maximal runs of letters and digits and joins those runs with
    `_`. Which runes are letters or digits (Unicode categories) is a parameter
    `keep` of every member; the only fact used about it is that `_` is neither
    a letter nor a digit. */
module CleanUp {

  /** `keep` classifies the characters that survive normalisation. */
  ghost predicate Classifier(keep: char -> bool) {
    !keep('_')
  }

  predicate AllKept(keep: char -> bool, s: string) {
    forall i :: 0 <= i < |s| ==> keep(s[i])
  }

  /** Length of the leading run of kept characters of `s`. */
  function RunLength(keep: char -> bool, s: string): (n: nat)
    ensures n <= |s|
    ensures AllKept(keep, s[..n])
    ensures n < |s| ==> !keep(s[n])
  {
    if s == [] || !keep(s[0]) then 0 else 1 + RunLength(keep, s[1..])
  }

  /** strings.FieldsFunc with the separator test `!keep`: the maximal runs of
      kept characters, in order, never empty. */
  function Fields(keep: char -> bool, s: string): (fs: seq<string>)
    ensures forall k :: 0 <= k < |fs| ==> fs[k] != [] && AllKept(keep, fs[k])
    decreases |s|
  {
    if s == [] then []
    else if !keep(s[0]) then Fields(keep, s[1..])
    else
      var n := RunLength(keep, s);
      [s[..n]] + Fields(keep, s[n..])
  }

  /** strings.Join. */
  function Join(parts: seq<string>, sep: string): string
  {
    if parts == [] then ""
    else if |parts| == 1 then parts[0]
    else parts[0] + sep + Join(parts[1..], sep)
  }

  /** CleanUpString. */
  function CleanUpString(keep: char -> bool, s: string): string
  {
    Join(Fields(keep, s), "_")
  }

  /** The shape every normalised name has: only kept characters and `_`, no
      `_` at either end and never two `_` in a row. */
  predicate WellFormed(keep: char -> bool, r: string) {
    && (forall i :: 0 <= i < |r| ==> keep(r[i]) || r[i] == '_')
    && (r != [] ==> r[0] != '_' && r[|r| - 1] != '_')
    && (forall i :: 0 <= i < |r| - 1 ==> r[i] != '_' || r[i + 1] != '_')
  }

  /** The kept characters of `s`, in order. */
  function Kept(keep: char -> bool, s: string): string
  {
    if s == [] then [] else (if keep(s[0]) then [s[0]] else []) + Kept(keep, s[1..])
  }

  /** `s` with every `_` removed. */
  function DropUnderscores(s: string): string
  {
    if s == [] then [] else (if s[0] == '_' then [] else [s[0]]) + DropUnderscores(s[1..])
  }

  function Concat(parts: seq<string>): string
  {
    if parts == [] then [] else parts[0] + Concat(parts[1..])
  }

  // ---------------------------------------------------------------------
  // Shape of the result

  lemma {:induction false} JoinWellFormed(keep: char -> bool, parts: seq<string>)
    requires Classifier(keep)
    requires forall k :: 0 <= k < |parts| ==> parts[k] != [] && AllKept(keep, parts[k])
    ensures WellFormed(keep, Join(parts, "_"))
    ensures parts != [] ==> Join(parts, "_") != []
  {
    if |parts| > 1 {
      var rest := Join(parts[1..], "_");
      JoinWellFormed(keep, parts[1..]);
      var r := parts[0] + "_" + rest;
      var p := parts[0];
      assert Join(parts, "_") == r;
      forall i | 0 <= i < |r| ensures keep(r[i]) || r[i] == '_' {
        if i < |p| { assert r[i] == p[i]; }
        else if i > |p| { assert r[i] == rest[i - |p| - 1]; }
      }
      forall i | 0 <= i < |r| - 1 ensures r[i] != '_' || r[i + 1] != '_' {
        if i < |p| { assert r[i] == p[i]; }
        else if i == |p| { assert r[i + 1] == rest[0]; }
        else { assert r[i] == rest[i - |p| - 1] && r[i + 1] == rest[i - |p|]; }
      }
      assert r[0] == p[0];
      assert r[|r| - 1] == rest[|rest| - 1];
    }
  }

  /** Every character of the result is kept or `_`; the result neither starts
      nor ends with `_`; it never holds `__`. */
  lemma CleanUpStringWellFormed(keep: char -> bool, s: string)
    requires Classifier(keep)
    ensures WellFormed(keep, CleanUpString(keep, s))
  {
    JoinWellFormed(keep, Fields(keep, s));
  }

  // ---------------------------------------------------------------------
  // Splitting a joined name gives the parts back: idempotence

  lemma {:induction false} RunLengthOfPrefix(keep: char -> bool, p: string, rest: string)
    requires AllKept(keep, p)
    requires rest != [] ==> !keep(rest[0])
    ensures RunLength(keep, p + rest) == |p|
    decreases |p|
  {
    if p != [] {
      assert (p + rest)[1..] == p[1..] + rest;
      RunLengthOfPrefix(keep, p[1..], rest);
    } else {
      assert p + rest == rest;
    }
  }

  lemma {:induction false} FieldsOfJoin(keep: char -> bool, parts: seq<string>)
    requires Classifier(keep)
    requires forall k :: 0 <= k < |parts| ==> parts[k] != [] && AllKept(keep, parts[k])
    ensures Fields(keep, Join(parts, "_")) == parts
  {
    if parts == [] {
    } else if |parts| == 1 {
      var p := parts[0];
      RunLengthOfPrefix(keep, p, []);
      assert p + [] == p;
      assert p[|p|..] == [];
      assert p[..|p|] == p;
    } else {
      var p := parts[0];
      var rest := Join(parts[1..], "_");
      var s := p + "_" + rest;
      assert s == p + ("_" + rest);
      RunLengthOfPrefix(keep, p, "_" + rest);
      assert s[..|p|] == p;
      assert s[|p|..] == "_" + rest;
      assert ("_" + rest)[1..] == rest;
      FieldsOfJoin(keep, parts[1..]);
      assert Fields(keep, s) == [p] + Fields(keep, rest);
    }
  }

  /** Normalising a normalised name changes nothing. */
  lemma CleanUpStringIdempotent(keep: char -> bool, s: string)
    requires Classifier(keep)
    ensures CleanUpString(keep, CleanUpString(keep, s)) == CleanUpString(keep, s)
  {
    FieldsOfJoin(keep, Fields(keep, s));
  }

  // ---------------------------------------------------------------------
  // Every separator splits: a run of non-letters becomes one `_`

  lemma {:induction false} RunLengthBeforeSeparator(keep: char -> bool, a: string, r: string)
    requires r != [] && !keep(r[0])
    ensures RunLength(keep, a + r) == RunLength(keep, a)
    decreases |a|
  {
    if a == [] {
      assert a + r == r;
    } else if keep(a[0]) {
      assert (a + r)[1..] == a[1..] + r;
      RunLengthBeforeSeparator(keep, a[1..], r);
    }
  }

  /** A separator splits the input: the fields of `a`, the separator and `b`
      are the fields of `a` followed by the fields of `b`. */
  lemma {:induction false} FieldsSplit(keep: char -> bool, a: string, c: char, b: string)
    requires !keep(c)
    ensures Fields(keep, a + [c] + b) == Fields(keep, a) + Fields(keep, b)
    decreases |a|
  {
    var s := a + [c] + b;
    if a == [] {
      assert s == [c] + b && s[1..] == b;
    } else if !keep(a[0]) {
      assert s[1..] == a[1..] + [c] + b;
      FieldsSplit(keep, a[1..], c, b);
    } else {
      assert s == a + ([c] + b);
      RunLengthBeforeSeparator(keep, a, [c] + b);
      var m := RunLength(keep, a);
      assert s[..m] == a[..m];
      assert s[m..] == a[m..] + [c] + b;
      FieldsSplit(keep, a[m..], c, b);
    }
  }

  lemma {:induction false} JoinAppend(xs: seq<string>, ys: seq<string>)
    requires xs != [] && ys != []
    ensures Join(xs + ys, "_") == Join(xs, "_") + "_" + Join(ys, "_")
  {
    assert (xs + ys)[0] == xs[0];
    if |xs| == 1 {
      assert (xs + ys)[1..] == ys;
    } else {
      assert (xs + ys)[1..] == xs[1..] + ys;
      JoinAppend(xs[1..], ys);
    }
  }

  /** Normalising `a`, a non-letter, non-digit character and `b` gives the
      normalised `a` and `b` joined by one `_`, or just one of them when the
      other has no letter or digit. */
  lemma CleanUpStringSplit(keep: char -> bool, a: string, c: char, b: string)
    requires !keep(c)
    ensures CleanUpString(keep, a + [c] + b)
         == if Fields(keep, a) == [] then CleanUpString(keep, b)
            else if Fields(keep, b) == [] then CleanUpString(keep, a)
            else CleanUpString(keep, a) + "_" + CleanUpString(keep, b)
  {
    FieldsSplit(keep, a, c, b);
    var fa, fb := Fields(keep, a), Fields(keep, b);
    if fa == [] {
      assert fa + fb == fb;
    } else if fb == [] {
      assert fa + fb == fa;
    } else {
      JoinAppend(fa, fb);
    }
  }

  /** Two words of letters and digits around one separator come back joined
      by `_`: "my-metric" becomes "my_metric", the dash is replaced, not
      dropped. */
  lemma CleanUpStringOfTwoWords(keep: char -> bool, a: string, c: char, b: string)
    requires Classifier(keep)
    requires a != [] && b != [] && AllKept(keep, a) && AllKept(keep, b) && !keep(c)
    ensures CleanUpString(keep, a + [c] + b) == a + "_" + b
  {
    CleanUpStringSplit(keep, a, c, b);
    FieldsOfJoin(keep, [a]);
    FieldsOfJoin(keep, [b]);
  }

  // ---------------------------------------------------------------------
  // Degenerate inputs

  /** A name made only of letters and digits comes back unchanged. */
  lemma CleanUpStringKeepsAlphanumeric(keep: char -> bool, s: string)
    requires Classifier(keep)
    requires AllKept(keep, s)
    ensures CleanUpString(keep, s) == s
  {
    if s != [] {
      FieldsOfJoin(keep, [s]);
    }
  }

  lemma {:induction false} FieldsOfSeparators(keep: char -> bool, s: string)
    requires forall i :: 0 <= i < |s| ==> !keep(s[i])
    ensures Fields(keep, s) == []
    decreases |s|
  {
    if s != [] {
      FieldsOfSeparators(keep, s[1..]);
    }
  }

  /** A name with no letter and no digit normalises to the empty string. */
  lemma CleanUpStringOfSeparators(keep: char -> bool, s: string)
    requires forall i :: 0 <= i < |s| ==> !keep(s[i])
    ensures CleanUpString(keep, s) == ""
  {
    FieldsOfSeparators(keep, s);
  }

  // ---------------------------------------------------------------------
  // The runs of the input, and nothing else, survive in order

  lemma {:induction false} KeptOfAllKept(keep: char -> bool, p: string)
    requires AllKept(keep, p)
    ensures Kept(keep, p) == p
    decreases |p|
  {
    if p != [] {
      KeptOfAllKept(keep, p[1..]);
      assert p == [p[0]] + p[1..];
    }
  }

  lemma {:induction false} KeptAppend(keep: char -> bool, a: string, b: string)
    ensures Kept(keep, a + b) == Kept(keep, a) + Kept(keep, b)
    decreases |a|
  {
    if a != [] {
      assert (a + b)[1..] == a[1..] + b;
      KeptAppend(keep, a[1..], b);
    } else {
      assert a + b == b;
    }
  }

  lemma {:induction false} ConcatFields(keep: char -> bool, s: string)
    ensures Concat(Fields(keep, s)) == Kept(keep, s)
    decreases |s|
  {
    if s != [] {
      if !keep(s[0]) {
        ConcatFields(keep, s[1..]);
      } else {
        var n := RunLength(keep, s);
        assert s == s[..n] + s[n..];
        KeptAppend(keep, s[..n], s[n..]);
        KeptOfAllKept(keep, s[..n]);
        ConcatFields(keep, s[n..]);
        assert Fields(keep, s)[1..] == Fields(keep, s[n..]);
      }
    }
  }

  lemma {:induction false} DropUnderscoresAppend(a: string, b: string)
    ensures DropUnderscores(a + b) == DropUnderscores(a) + DropUnderscores(b)
    decreases |a|
  {
    if a != [] {
      assert (a + b)[1..] == a[1..] + b;
      DropUnderscoresAppend(a[1..], b);
    } else {
      assert a + b == b;
    }
  }

  lemma {:induction false} DropUnderscoresOfKept(keep: char -> bool, p: string)
    requires Classifier(keep)
    requires AllKept(keep, p)
    ensures DropUnderscores(p) == p
    decreases |p|
  {
    if p != [] {
      DropUnderscoresOfKept(keep, p[1..]);
      assert p == [p[0]] + p[1..];
    }
  }

  lemma DropUnderscoresAroundSeparator(p: string, rest: string)
    requires DropUnderscores(p) == p
    ensures DropUnderscores(p + "_" + rest) == p + DropUnderscores(rest)
  {
    DropUnderscoresAppend(p + "_", rest);
    DropUnderscoresAppend(p, "_");
    assert DropUnderscores("_") == [];
  }

  lemma {:induction false} DropUnderscoresOfJoin(keep: char -> bool, parts: seq<string>)
    requires Classifier(keep)
    requires forall k :: 0 <= k < |parts| ==> AllKept(keep, parts[k])
    ensures DropUnderscores(Join(parts, "_")) == Concat(parts)
  {
    if parts == [] {
    } else if |parts| == 1 {
      DropUnderscoresOfKept(keep, parts[0]);
      assert Concat(parts) == parts[0] + [];
    } else {
      var p := parts[0];
      DropUnderscoresOfKept(keep, p);
      DropUnderscoresAroundSeparator(p, Join(parts[1..], "_"));
      DropUnderscoresOfJoin(keep, parts[1..]);
    }
  }

  /** Deleting the `_` separators from the result leaves exactly the letters
      and digits of the input, in their original order. */
  lemma CleanUpStringKeepsRunsInOrder(keep: char -> bool, s: string)
    requires Classifier(keep)
    ensures DropUnderscores(CleanUpString(keep, s)) == Kept(keep, s)
  {
    DropUnderscoresOfJoin(keep, Fields(keep, s));
    ConcatFields(keep, s);
  }

  /** The separators of the result are the joins between the maximal runs:
      there are exactly |Fields| - 1 of them. */
  lemma {:induction false} JoinUnderscoreCount(parts: seq<string>)
    ensures |Join(parts, "_")| == |Concat(parts)| + (if parts == [] then 0 else |parts| - 1)
  {
    if |parts| == 1 {
      assert Concat(parts) == parts[0] + [];
    } else if |parts| > 1 {
      JoinUnderscoreCount(parts[1..]);
    }
  }

  /** The result holds the input's letters and digits plus exactly one `_`
      between each two consecutive maximal runs. */
  lemma CleanUpStringLength(keep: char -> bool, s: string)
    requires Classifier(keep)
    ensures var fs := Fields(keep, s);
      |CleanUpString(keep, s)| == |Kept(keep, s)| + (if fs == [] then 0 else |fs| - 1)
  {
    JoinUnderscoreCount(Fields(keep, s));
    ConcatFields(keep, s);
  }
}

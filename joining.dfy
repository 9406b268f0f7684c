/** Kotlin's `joinToString(separator)` on a list of strings, and the split that undoes it. */
module Joining {

  /** The parts, in order, with one separator between neighbours and none around them. */
  function Join(parts: seq<string>, sep: char): (r: string)
    ensures |parts| == 0 ==> r == ""
    ensures |parts| >= 1 ==> |parts[0]| <= |r| && r[..|parts[0]|] == parts[0]
    ensures |parts| >= 2 ==> |parts[0]| < |r| && r[|parts[0]|] == sep
  {
    if |parts| == 0 then ""
    else if |parts| == 1 then parts[0]
    else parts[0] + [sep] + Join(parts[1..], sep)
  }

  /** The pieces of `s` between separators; always at least one piece. */
  function Split(s: string, sep: char): (r: seq<string>)
    ensures |r| >= 1
  {
    if s == [] then [""]
    else
      var rest := Split(s[1..], sep);
      if s[0] == sep then [""] + rest else [[s[0]] + rest[0]] + rest[1..]
  }

  /** A joined value is empty only for no parts or for one empty part. */
  lemma JoinEmptyIff(parts: seq<string>, sep: char)
    ensures Join(parts, sep) == "" <==> parts == [] || parts == [""]
  {
  }

  lemma {:induction false} SplitWithoutSeparator(p: string, sep: char)
    requires sep !in p
    ensures Split(p, sep) == [p]
  {
    if p != [] {
      SplitWithoutSeparator(p[1..], sep);
      assert [p[0]] + p[1..] == p;
    }
  }

  lemma {:induction false} SplitAfterPart(p: string, t: string, sep: char)
    requires sep !in p
    ensures Split(p + [sep] + t, sep) == [p] + Split(t, sep)
  {
    var s := p + [sep] + t;
    if p == [] {
      assert s[1..] == t;
    } else {
      assert s[1..] == p[1..] + [sep] + t;
      SplitAfterPart(p[1..], t, sep);
      assert [p[0]] + p[1..] == p;
    }
  }

  /** Splitting undoes joining, provided there is a part and no part contains the separator. */
  lemma {:induction false} SplitJoin(parts: seq<string>, sep: char)
    requires |parts| >= 1
    requires forall k :: 0 <= k < |parts| ==> sep !in parts[k]
    ensures Split(Join(parts, sep), sep) == parts
  {
    if |parts| == 1 {
      SplitWithoutSeparator(parts[0], sep);
    } else {
      SplitJoin(parts[1..], sep);
      SplitAfterPart(parts[0], Join(parts[1..], sep), sep);
      assert [parts[0]] + parts[1..] == parts;
    }
  }

  /** How many times `c` occurs in `s`. */
  function Occurrences(s: string, c: char): nat
  {
    if s == [] then 0 else (if s[0] == c then 1 else 0) + Occurrences(s[1..], c)
  }

  /** Occurrences of `c` summed over all parts. */
  function TotalOccurrences(parts: seq<string>, c: char): nat
  {
    if parts == [] then 0 else Occurrences(parts[0], c) + TotalOccurrences(parts[1..], c)
  }

  lemma {:induction false} OccurrencesConcat(a: string, b: string, c: char)
    ensures Occurrences(a + b, c) == Occurrences(a, c) + Occurrences(b, c)
  {
    if a == [] {
      assert a + b == b;
    } else {
      assert (a + b)[1..] == a[1..] + b;
      OccurrencesConcat(a[1..], b, c);
    }
  }

  lemma {:induction false} OccurrencesPositive(s: string, c: char)
    requires c in s
    ensures Occurrences(s, c) >= 1
  {
    if s[0] != c {
      assert c in s[1..];
      OccurrencesPositive(s[1..], c);
    }
  }

  /** Split yields one piece more than there are separators. */
  lemma {:induction false} SplitLength(s: string, sep: char)
    ensures |Split(s, sep)| == 1 + Occurrences(s, sep)
  {
    if s != [] {
      SplitLength(s[1..], sep);
    }
  }

  /** Joining adds one separator between each pair of neighbouring parts. */
  lemma {:induction false} JoinOccurrences(parts: seq<string>, sep: char)
    requires |parts| >= 1
    ensures Occurrences(Join(parts, sep), sep) == TotalOccurrences(parts, sep) + |parts| - 1
  {
    if |parts| == 1 {
      assert parts[1..] == [];
    } else {
      JoinOccurrences(parts[1..], sep);
      OccurrencesConcat(parts[0] + [sep], Join(parts[1..], sep), sep);
      OccurrencesConcat(parts[0], [sep], sep);
      assert Occurrences([sep], sep) == 1 by { assert [sep][1..] == []; }
    }
  }

  lemma {:induction false} TotalOccurrencesPositive(parts: seq<string>, c: char, k: nat)
    requires k < |parts| && c in parts[k]
    ensures TotalOccurrences(parts, c) >= 1
  {
    if k == 0 {
      OccurrencesPositive(parts[0], c);
    } else {
      TotalOccurrencesPositive(parts[1..], c, k - 1);
    }
  }

  /** The converse of `SplitJoin`: once some part contains the separator, splitting the joined
      value yields more pieces than there were parts, so the parts are not recovered. */
  lemma SplitJoinBreaks(parts: seq<string>, sep: char, k: nat)
    requires k < |parts| && sep in parts[k]
    ensures |Split(Join(parts, sep), sep)| > |parts|
  {
    SplitLength(Join(parts, sep), sep);
    JoinOccurrences(parts, sep);
    TotalOccurrencesPositive(parts, sep, k);
  }
}

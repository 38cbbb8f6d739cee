/** Character-sequence helpers used by both revisions of the parser: the
    segments Rust's `str::split` yields for a single-character pattern, the
    inverse `join`, and a suffix test for rendered output. */
module Strings {

  /** The segments of `s.split(sep)`: at least one, none of them containing
      the separator. */
  function Split(s: string, sep: char): (parts: seq<string>)
    ensures |parts| >= 1
    ensures forall i :: 0 <= i < |parts| ==> sep !in parts[i]
  {
    if s == [] then [[]]
    else
      var rest := Split(s[1..], sep);
      if s[0] == sep then [[]] + rest
      else [[s[0]] + rest[0]] + rest[1..]
  }

  /** The segments put back together with `sep` between neighbours. */
  function Join(parts: seq<string>, sep: char): (s: string)
    requires |parts| >= 1
    ensures parts[0] <= s
  {
    if |parts| == 1 then parts[0] else parts[0] + [sep] + Join(parts[1..], sep)
  }

  /** `s` ends with `suffix`. */
  predicate EndsWith(s: string, suffix: string) {
    |suffix| <= |s| && s[|s| - |suffix|..] == suffix
  }

  /** Where the parts of a three-part concatenation sit in it. */
  lemma Concat3(a: string, b: string, c: string)
    ensures a <= a + b + c && a + b <= a + b + c
    ensures EndsWith(a + b + c, c)
  {
  }

  /** The character just before a suffix `c` of `a + b + c` is the last
      one of `b`. */
  lemma CharBeforeSuffix(a: string, b: string, c: string)
    requires |b| > 0
    ensures EndsWith(a + b + c, b + c)
    ensures (a + b + c)[|a + b + c| - |c| - 1] == b[|b| - 1]
  {
  }

  /** A split yields exactly one more segment than there are separators. */
  lemma {:induction false} SplitCount(s: string, sep: char)
    ensures |Split(s, sep)| == multiset(s)[sep] + 1
    decreases |s|
  {
    if s != [] {
      SplitCount(s[1..], sep);
      assert s == [s[0]] + s[1..];
      assert multiset(s)[sep] == (if s[0] == sep then 1 else 0) + multiset(s[1..])[sep];
    }
  }

  /** Prepending text to the first segment prepends it to the joined string. */
  lemma JoinHead(a: string, parts: seq<string>, sep: char)
    requires |parts| >= 1
    ensures Join([a + parts[0]] + parts[1..], sep) == a + Join(parts, sep)
  {
  }

  /** Joining the segments of a split gives back the original string. */
  lemma {:induction false} SplitJoin(s: string, sep: char)
    ensures Join(Split(s, sep), sep) == s
    decreases |s|
  {
    if s != [] {
      var rest := Split(s[1..], sep);
      SplitJoin(s[1..], sep);
      if s[0] == sep {
        var parts := [[]] + rest;
        assert Split(s, sep) == parts;
        assert parts[1..] == rest;
        assert Join(parts, sep) == [] + [sep] + s[1..];
        assert s == [sep] + s[1..];
      } else {
        assert Split(s, sep) == [[s[0]] + rest[0]] + rest[1..];
        JoinHead([s[0]], rest, sep);
        assert s == [s[0]] + s[1..];
      }
    }
  }

  /** Splitting a string whose first `|a|` characters hold no separator
      glues `a` onto the first segment of the rest. */
  lemma {:induction false} SplitPrefix(a: string, t: string, sep: char)
    requires sep !in a
    ensures Split(a + t, sep) == [a + Split(t, sep)[0]] + Split(t, sep)[1..]
    decreases |a|
  {
    var ts := Split(t, sep);
    if a == [] {
      assert a + t == t;
      assert a + ts[0] == ts[0];
      assert [ts[0]] + ts[1..] == ts;
    } else {
      SplitPrefix(a[1..], t, sep);
      var rest := Split(a[1..] + t, sep);
      assert rest[0] == a[1..] + ts[0] && rest[1..] == ts[1..];
      assert (a + t)[1..] == a[1..] + t;
      assert a + t != [] && (a + t)[0] == a[0] != sep;
      assert Split(a + t, sep) == [[a[0]] + rest[0]] + rest[1..];
      assert a == [a[0]] + a[1..];
      assert [a[0]] + (a[1..] + ts[0]) == ([a[0]] + a[1..]) + ts[0];
    }
  }

  /** Splitting the join of separator-free segments gives them back. */
  lemma {:induction false} JoinSplit(parts: seq<string>, sep: char)
    requires |parts| >= 1
    requires forall i :: 0 <= i < |parts| ==> sep !in parts[i]
    ensures Split(Join(parts, sep), sep) == parts
    decreases |parts|
  {
    if |parts| == 1 {
      SplitPrefix(parts[0], [], sep);
      assert parts[0] + [] == parts[0];
    } else {
      var rest := parts[1..];
      JoinSplit(rest, sep);
      var t := [sep] + Join(rest, sep);
      assert Join(parts, sep) == parts[0] + t;
      SplitPrefix(parts[0], t, sep);
      assert t[0] == sep && t[1..] == Join(rest, sep);
      assert Split(t, sep) == [[]] + rest;
      assert parts[0] + [] == parts[0];
      assert parts == [parts[0]] + rest;
    }
  }

  /** A string with exactly one separator splits into the text on either side. */
  lemma SplitAround(a: string, b: string, sep: char)
    requires sep !in a && sep !in b
    ensures Split(a + [sep] + b, sep) == [a, b]
  {
    JoinSplit([a, b], sep);
    assert [a, b][1..] == [b];
  }
}

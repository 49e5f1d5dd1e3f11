/**
 String splitting and joining as the modelled code uses them: `Split` is Python's
 `s.split(sep)` for a one-character separator, `Join` is `sep.join(parts)`.
 */
module Strings {

  predicate StartsWith(s: string, p: string) {
    |p| <= |s| && s[..|p|] == p
  }

  predicate EndsWith(s: string, p: string) {
    |p| <= |s| && s[|s| - |p|..] == p
  }

  function Split(s: string, sep: char): (parts: seq<string>)
    ensures |parts| >= 1
    ensures forall part <- parts :: sep !in part
  {
    if s == "" then [""]
    else
      var rest := Split(s[1..], sep);
      if s[0] == sep then [""] + rest else [[s[0]] + rest[0]] + rest[1..]
  }

  function Join(parts: seq<string>, sep: char): (s: string)
    requires |parts| >= 1
  {
    if |parts| == 1 then parts[0] else parts[0] + [sep] + Join(parts[1..], sep)
  }

  lemma {:induction false} JoinOfSplit(s: string, sep: char)
    ensures Join(Split(s, sep), sep) == s
  {
    if s != "" {
      JoinOfSplit(s[1..], sep);
      var rest := Split(s[1..], sep);
      if s[0] == sep {
        assert ([""] + rest)[1..] == rest;
      } else {
        assert ([[s[0]] + rest[0]] + rest[1..])[1..] == rest[1..];
      }
    }
  }

  lemma {:induction false} SplitOfPlain(s: string, sep: char)
    requires sep !in s
    ensures Split(s, sep) == [s]
  {
    if s != "" {
      SplitOfPlain(s[1..], sep);
      assert [s[0]] + s[1..] == s;
    }
  }

  // Splitting distributes over a separator placed between two strings.
  lemma {:induction false} SplitAppend(a: string, b: string, sep: char)
    ensures Split(a + [sep] + b, sep) == Split(a, sep) + Split(b, sep)
  {
    var s := a + [sep] + b;
    if a == "" {
      assert s[1..] == b;
    } else {
      assert s[1..] == a[1..] + [sep] + b;
      SplitAppend(a[1..], b, sep);
    }
  }

  lemma {:induction false} JoinAppend(xs: seq<string>, ys: seq<string>, sep: char)
    requires |xs| >= 1 && |ys| >= 1
    ensures Join(xs + ys, sep) == Join(xs, sep) + [sep] + Join(ys, sep)
  {
    if |xs| == 1 {
      assert (xs + ys)[1..] == ys;
    } else {
      assert (xs + ys)[1..] == xs[1..] + ys;
      JoinAppend(xs[1..], ys, sep);
    }
  }

  lemma {:induction false} SplitOfJoin(parts: seq<string>, sep: char)
    requires |parts| >= 1
    requires forall part <- parts :: sep !in part
    ensures Split(Join(parts, sep), sep) == parts
  {
    SplitOfPlain(parts[0], sep);
    if |parts| > 1 {
      SplitOfJoin(parts[1..], sep);
      SplitAppend(parts[0], Join(parts[1..], sep), sep);
    }
  }

  lemma TextPrefixGivesComponents(s: string, p: string, sep: char)
    requires StartsWith(s, p) && (|p| == |s| || s[|p|] == sep)
    ensures Split(p, sep) <= Split(s, sep)
  {
    hide Split;
    if |p| == |s| {
      assert s == p;
    } else {
      assert s == p + [sep] + s[|p| + 1..];
      SplitAppend(p, s[|p| + 1..], sep);
    }
  }

  lemma JoinedPrefix(ps: seq<string>, ss: seq<string>, sep: char)
    requires 1 <= |ps| && ps <= ss
    ensures var p, s := Join(ps, sep), Join(ss, sep);
            StartsWith(s, p) && (|p| == |s| || s[|p|] == sep)
  {
    var rest := ss[|ps|..];
    assert ss == ps + rest;
    if rest == [] {
      assert ss == ps;
    } else {
      JoinAppend(ps, rest, sep);
    }
  }

  lemma ComponentsGiveTextPrefix(s: string, p: string, sep: char)
    requires Split(p, sep) <= Split(s, sep)
    ensures StartsWith(s, p) && (|p| == |s| || s[|p|] == sep)
  {
    JoinOfSplit(s, sep);
    JoinOfSplit(p, sep);
    JoinedPrefix(Split(p, sep), Split(s, sep), sep);
  }

  // The textual test "starts with p, and p ends there or a separator follows" is exactly
  // the component-wise prefix test.
  lemma TextPrefixIsComponentPrefix(s: string, p: string, sep: char)
    ensures (StartsWith(s, p) && (|p| == |s| || s[|p|] == sep)) <==> Split(p, sep) <= Split(s, sep)
  {
    if StartsWith(s, p) && (|p| == |s| || s[|p|] == sep) {
      TextPrefixGivesComponents(s, p, sep);
    }
    if Split(p, sep) <= Split(s, sep) {
      ComponentsGiveTextPrefix(s, p, sep);
    }
  }
}

/** Splitting text at a separator and joining it again. */
module Texts {
  lemma Regroup(a: string, b: string, c: string)
    ensures a + (b + c) == (a + b) + c
  {
  }

  lemma Cut(a: string, b: string)
    ensures (a + b)[..|a|] == a && (a + b)[|a|..] == b
  {
  }

  /** The first place of c in s, |s| when it has none. */
  function IndexOf(s: string, c: char): (i: nat)
    ensures i <= |s| && c !in s[..i]
    ensures i < |s| ==> s[i] == c
  {
    if s == [] || s[0] == c then 0 else 1 + IndexOf(s[1..], c)
  }

  lemma {:induction false} IndexOfAppend(a: string, b: string, c: char)
    requires c !in a
    ensures IndexOf(a + b, c) == |a| + IndexOf(b, c)
  {
    if a == [] {
      assert a + b == b;
    } else {
      assert (a + b)[1..] == a[1..] + b;
      assert a[0] in a;
      IndexOfAppend(a[1..], b, c);
    }
  }

  function Split(s: string, separator: char): (fields: seq<string>)
    ensures fields != []
    decreases |s|
  {
    var i := IndexOf(s, separator);
    if i == |s| then [s] else [s[..i]] + Split(s[i + 1..], separator)
  }

  function Join(fields: seq<string>, separator: char): string {
    if fields == [] then []
    else if |fields| == 1 then fields[0]
    else fields[0] + [separator] + Join(fields[1..], separator)
  }

  lemma JoinFirst(first: string, rest: seq<string>, separator: char)
    requires rest != []
    ensures Join([first] + rest, separator) == first + [separator] + Join(rest, separator)
  {
    assert ([first] + rest)[1..] == rest;
  }

  lemma CutAt(s: string, i: nat)
    requires i < |s|
    ensures s[..i] + [s[i]] + s[i + 1..] == s
  {
  }

  lemma {:induction false} JoinSplit(s: string, separator: char)
    ensures Join(Split(s, separator), separator) == s
    decreases |s|
  {
    var i := IndexOf(s, separator);
    if i < |s| {
      JoinSplit(s[i + 1..], separator);
      JoinFirst(s[..i], Split(s[i + 1..], separator), separator);
      CutAt(s, i);
    }
  }

  /** Fields without the separator come back out of their join. */
  lemma {:induction false} SplitJoin(fields: seq<string>, separator: char)
    requires fields != [] && forall i :: 0 <= i < |fields| ==> separator !in fields[i]
    ensures Split(Join(fields, separator), separator) == fields
  {
    if |fields| == 1 {
      IndexOfNone(fields[0], separator);
    } else {
      var rest := Join(fields[1..], separator);
      SplitJoin(fields[1..], separator);
      SplitFirst(fields[0], rest, separator);
      assert Join(fields, separator) == fields[0] + [separator] + rest;
    }
  }

  lemma IndexOfNone(s: string, c: char)
    requires c !in s
    ensures IndexOf(s, c) == |s|
  {
  }

  lemma SplitFirst(first: string, rest: string, separator: char)
    requires separator !in first
    ensures Split(first + [separator] + rest, separator) == [first] + Split(rest, separator)
  {
    var s := first + [separator] + rest;
    assert s == first + ([separator] + rest);
    IndexOfAppend(first, [separator] + rest, separator);
    assert s[..|first|] == first && s[|first| + 1..] == rest;
  }

  lemma {:induction false} FieldsOfSplit(s: string, separator: char)
    ensures forall i :: 0 <= i < |Split(s, separator)| ==> separator !in Split(s, separator)[i]
    decreases |s|
  {
    var i := IndexOf(s, separator);
    if i < |s| {
      FieldsOfSplit(s[i + 1..], separator);
    }
  }

  /** What the text does not hold, no field holds. */
  lemma {:induction false} SplitHolds(s: string, separator: char, c: char)
    requires c !in s
    ensures forall i :: 0 <= i < |Split(s, separator)| ==> c !in Split(s, separator)[i]
    decreases |s|
  {
    var i := IndexOf(s, separator);
    if i < |s| {
      SplitHolds(s[i + 1..], separator, c);
    }
  }

  lemma {:induction false} JoinHolds(fields: seq<string>, separator: char, c: char)
    requires c != separator && forall i :: 0 <= i < |fields| ==> c !in fields[i]
    ensures c !in Join(fields, separator)
  {
    if |fields| > 1 {
      JoinHolds(fields[1..], separator, c);
    }
  }

  lemma {:induction false} JoinAppend(fields: seq<string>, last: string, separator: char)
    requires fields != []
    ensures Join(fields + [last], separator) == Join(fields, separator) + [separator] + last
  {
    if |fields| == 1 {
      assert (fields + [last])[1..] == [last];
    } else {
      JoinAppend(fields[1..], last, separator);
      assert (fields + [last])[1..] == fields[1..] + [last];
      var (a, b) := (fields[0] + [separator], Join(fields[1..], separator));
      assert a + (b + [separator] + last) == a + b + [separator] + last;
    }
  }

  /** A last field without the separator is split off. */
  lemma SplitLast(s: string, last: string, separator: char)
    requires separator !in last
    ensures Split(s + [separator] + last, separator) == Split(s, separator) + [last]
  {
    FieldsOfSplit(s, separator);
    JoinSplit(s, separator);
    JoinAppend(Split(s, separator), last, separator);
    SplitJoin(Split(s, separator) + [last], separator);
  }

  lemma {:induction false} JoinExtend(fields: seq<string>, more: string, separator: char)
    requires fields != []
    ensures Join(fields[|fields| - 1 := fields[|fields| - 1] + more], separator) == Join(fields, separator) + more
  {
    var n := |fields| - 1;
    var extended := fields[n := fields[n] + more];
    if n > 0 {
      JoinExtend(fields[1..], more, separator);
      assert extended[1..] == fields[1..][n - 1 := fields[n] + more];
      Regroup(fields[0] + [separator], Join(fields[1..], separator), more);
    }
  }

  /** A character that is no separator goes to the last field. */
  lemma SplitExtend(s: string, c: char, separator: char)
    requires c != separator
    ensures var fields := Split(s, separator);
            Split(s + [c], separator) == fields[|fields| - 1 := fields[|fields| - 1] + [c]]
  {
    var fields := Split(s, separator);
    FieldsOfSplit(s, separator);
    JoinSplit(s, separator);
    JoinExtend(fields, [c], separator);
    SplitJoin(fields[|fields| - 1 := fields[|fields| - 1] + [c]], separator);
  }

  /** The first place where matches holds, |s| when there is none. */
  function FirstWhere<T>(s: seq<T>, matches: T -> bool): (k: nat)
    ensures k <= |s|
    ensures forall i :: 0 <= i < k ==> !matches(s[i])
    ensures k < |s| ==> matches(s[k])
  {
    if s == [] || matches(s[0]) then 0 else 1 + FirstWhere(s[1..], matches)
  }

  lemma FirstWhereIs<T>(s: seq<T>, matches: T -> bool, k: nat)
    requires k <= |s| && forall i :: 0 <= i < k ==> !matches(s[i])
    requires k < |s| ==> matches(s[k])
    ensures FirstWhere(s, matches) == k
  {
  }
}

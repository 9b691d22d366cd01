/** Byte-wise string order and sorted enumerations of name sets (Go's `sort.Strings`). */
module Text {
  predicate Less(a: string, b: string) {
    if b == "" then false
    else if a == "" then true
    else if a[0] != b[0] then a[0] < b[0]
    else Less(a[1..], b[1..])
  }

  lemma {:induction false} LessTotal(a: string, b: string)
    ensures Less(a, b) || a == b || Less(b, a)
    ensures !(Less(a, b) && Less(b, a))
    ensures a == b ==> !Less(a, b)
  {
    if a != "" && b != "" && a[0] == b[0] {
      LessTotal(a[1..], b[1..]);
      assert a == [a[0]] + a[1..] && b == [b[0]] + b[1..];
    }
  }

  lemma {:induction false} LessTransitive(a: string, b: string, c: string)
    requires Less(a, b) && Less(b, c)
    ensures Less(a, c)
  {
    if a != "" && a[0] == b[0] && b[0] == c[0] {
      LessTransitive(a[1..], b[1..], c[1..]);
    }
  }

  ghost predicate Distinct(names: seq<string>) {
    forall i, j :: 0 <= i < j < |names| ==> names[i] != names[j]
  }

  /** Strictly ascending, hence free of duplicates. */
  ghost predicate Ascending(s: seq<string>) {
    forall i, j :: 0 <= i < j < |s| ==> Less(s[i], s[j])
  }

  ghost predicate Enumerates(s: seq<string>, names: set<string>) {
    forall n :: n in s <==> n in names
  }

  function Insert(x: string, s: seq<string>): seq<string> {
    if s == [] then [x]
    else if Less(x, s[0]) then [x] + s
    else [s[0]] + Insert(x, s[1..])
  }

  lemma {:induction false} InsertSorted(x: string, s: seq<string>)
    requires Ascending(s) && x !in s
    ensures Ascending(Insert(x, s))
    ensures forall n :: n in Insert(x, s) <==> n == x || n in s
  {
    if s != [] {
      LessTotal(x, s[0]);
      if Less(x, s[0]) {
        forall j | 0 <= j < |s|
          ensures Less(x, s[j])
        {
          if j > 0 {
            LessTransitive(x, s[0], s[j]);
          }
        }
      } else {
        assert x != s[0];
        assert s == [s[0]] + s[1..];
        InsertSorted(x, s[1..]);
        var rest := Insert(x, s[1..]);
        forall j | 0 <= j < |rest|
          ensures Less(s[0], rest[j])
        {
          assert rest[j] in rest;
        }
      }
    }
  }

  method SortNames(names: set<string>) returns (sorted: seq<string>)
    ensures Ascending(sorted) && Enumerates(sorted, names)
  {
    sorted := [];
    var left := names;
    while left != {}
      invariant left <= names && Ascending(sorted) && Enumerates(sorted, names - left)
      decreases left
    {
      var n :| n in left;
      InsertSorted(n, sorted);
      sorted := Insert(n, sorted);
      left := left - {n};
    }
    assert names - left == names;
  }

  /** A set has one ascending enumeration. */
  lemma {:induction false} AscendingUnique(a: seq<string>, b: seq<string>)
    requires Ascending(a) && Ascending(b)
    requires forall n :: n in a <==> n in b
    ensures a == b
    decreases |a|
  {
    if a == [] {
      assert forall i :: 0 <= i < |b| ==> b[i] in b;
    } else {
      assert a[0] in a && a[0] in b;
      assert b[0] in b && b[0] in a;
      LessTotal(a[0], b[0]);
      forall n
        ensures n in a[1..] <==> n in b[1..]
      {
        TailMembers(a, n);
        TailMembers(b, n);
      }
      AscendingUnique(a[1..], b[1..]);
      assert a == [a[0]] + a[1..] && b == [b[0]] + b[1..];
    }
  }

  lemma {:induction false} TailMembers(s: seq<string>, n: string)
    requires Ascending(s) && s != []
    ensures n in s[1..] <==> n in s && n != s[0]
  {
    if n in s[1..] {
      var i :| 0 <= i < |s[1..]| && s[1..][i] == n;
      assert s[i + 1] == n && Less(s[0], s[i + 1]);
      LessTotal(s[0], n);
    }
  }
}

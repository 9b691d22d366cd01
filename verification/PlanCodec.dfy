/**
 Unique readability of the fields in the plan byte stream
 (internal/lifecycle/manager_linux.go): each lemma says that two streams that
 start with such a field and agree carry the same field and the same remainder.
 */
module PlanCodec {
  import opened Wrappers

  predicate IsDigit(c: char) {
    '0' <= c <= '9'
  }

  predicate Digits(s: string) {
    s != "" && forall i :: 0 <= i < |s| ==> IsDigit(s[i])
  }

  /** Decimal text of a number, as `%d` prints it. */
  function Decimal(n: nat): (s: string)
    ensures Digits(s)
  {
    if n < 10 then [DigitChar(n)] else Decimal(n / 10) + [DigitChar(n % 10)]
  }

  function DigitChar(d: nat): (c: char)
    requires d < 10
    ensures IsDigit(c)
  {
    (d + '0' as int) as char
  }

  function Value(s: string): nat
    requires forall i :: 0 <= i < |s| ==> IsDigit(s[i])
  {
    if s == "" then 0
    else
      assert IsDigit(s[|s| - 1]);
      var d: nat := s[|s| - 1] as int - '0' as int;
      Value(s[..|s| - 1]) * 10 + d
  }

  lemma {:induction false} DecimalValue(n: nat)
    ensures Value(Decimal(n)) == n
  {
    if n < 10 {
      assert Decimal(n)[..0] == "";
    } else {
      DecimalValue(n / 10);
      assert Decimal(n)[..|Decimal(n)| - 1] == Decimal(n / 10);
    }
  }

  lemma {:induction false} DecimalInjective(a: nat, b: nat)
    requires Decimal(a) == Decimal(b)
    ensures a == b
  {
    DecimalValue(a);
    DecimalValue(b);
  }

  lemma {:induction false} SameLength(a: string, b: string, x: string, y: string)
    requires |a| == |b| && a + x == b + y
    ensures a == b && x == y
  {
    assert a == (a + x)[..|a|] && b == (b + y)[..|b|];
    assert x == (a + x)[|a|..] && y == (b + y)[|b|..];
  }

  lemma {:induction false} Append(a: string, b: string, c: string)
    ensures a + (b + c) == (a + b) + c
  {
  }

  lemma {:induction false} Regroup(t: string, f: string, r: string, x: string)
    ensures t + f + r + x == t + (f + (r + x))
  {
  }

  /** A text over one alphabet ends where the first character outside it stands. */
  ghost predicate EndsRun(x: string, alphabet: char -> bool) {
    x == "" || !alphabet(x[0])
  }

  ghost predicate Over(s: string, alphabet: char -> bool) {
    forall i :: 0 <= i < |s| ==> alphabet(s[i])
  }

  lemma {:induction false} RunUnique(a: string, b: string, x: string, y: string, alphabet: char -> bool)
    requires Over(a, alphabet) && Over(b, alphabet) && EndsRun(x, alphabet) && EndsRun(y, alphabet)
    requires a + x == b + y
    ensures a == b && x == y
  {
    var s := a + x;
    assert forall i :: 0 <= i < |a| ==> s[i] == a[i];
    assert forall i :: 0 <= i < |b| ==> s[i] == b[i];
    assert |a| < |s| ==> s[|a|] == x[0];
    assert |b| < |s| ==> s[|b|] == y[0];
    assert |a| == |b|;
    SameLength(a, b, x, y);
  }

  /** Neither text can stand for the start of the other. */
  ghost predicate Clash(p: string, q: string) {
    exists k :: 0 <= k < |p| && k < |q| && p[k] != q[k]
  }

  lemma {:induction false} ClashDiffers(p: string, q: string, x: string, y: string)
    requires Clash(p, q)
    ensures p + x != q + y
  {
    var k :| 0 <= k < |p| && k < |q| && p[k] != q[k];
    assert (p + x)[k] == p[k] && (q + y)[k] == q[k];
  }

  lemma {:induction false} NotPrefixAt(p: string, s: string, k: nat)
    requires k < |p| && (k < |s| ==> s[k] != p[k])
    ensures !(p <= s)
  {
  }

  // ----- optional fields with literal prefixes (groups and users) -----

  predicate IDChar(c: char) {
    IsDigit(c) || c == ':'
  }

  function Fields(prefixes: seq<string>, values: seq<Option<string>>): string
    requires |prefixes| == |values|
  {
    if prefixes == [] then ""
    else Field(prefixes[0], values[0]) + Fields(prefixes[1..], values[1..])
  }

  function Field(prefix: string, value: Option<string>): string {
    if value.Some? then prefix + value.value else ""
  }

  ghost predicate GoodPrefixes(prefixes: seq<string>) {
    && (forall i :: 0 <= i < |prefixes| ==> prefixes[i] != "" && prefixes[i][0] != '/' && !IDChar(prefixes[i][0]))
    && forall i, j :: 0 <= i < j < |prefixes| ==> Clash(prefixes[i], prefixes[j])
  }

  ghost predicate GoodValues(values: seq<Option<string>>) {
    forall i :: 0 <= i < |values| && values[i].Some? ==> Over(values[i].value, IDChar)
  }

  ghost predicate StartsWithSlash(x: string) {
    x != "" && x[0] == '/'
  }

  /** What follows the first field starts with a later prefix or with the slash of a path. */
  lemma {:induction false} FieldsStart(prefixes: seq<string>, values: seq<Option<string>>, x: string)
    requires |prefixes| == |values| && StartsWithSlash(x)
    ensures var s := Fields(prefixes, values) + x;
            s == x || exists j :: 0 <= j < |prefixes| && prefixes[j] <= s
  {
    if prefixes == [] {
      assert Fields(prefixes, values) + x == x;
    } else {
      var s := Fields(prefixes, values) + x;
      if values[0].Some? {
        assert prefixes[0] <= s;
      } else {
        assert s == Fields(prefixes[1..], values[1..]) + x;
        FieldsStart(prefixes[1..], values[1..], x);
        if s != x {
          var j :| 0 <= j < |prefixes[1..]| && prefixes[1..][j] <= s;
          assert prefixes[j + 1] <= s;
        }
      }
    }
  }

  /** The remainder after a field cannot be read as that field. */
  lemma {:induction false} FieldsNotMistaken(prefixes: seq<string>, values: seq<Option<string>>, x: string)
    requires |prefixes| == |values| && prefixes != [] && GoodPrefixes(prefixes) && StartsWithSlash(x)
    ensures var s := Fields(prefixes[1..], values[1..]) + x;
            !(prefixes[0] <= s) && EndsRun(s, IDChar)
  {
    var s := Fields(prefixes[1..], values[1..]) + x;
    FieldsStart(prefixes[1..], values[1..], x);
    if s == x {
      NotPrefixAt(prefixes[0], s, 0);
    } else {
      var j :| 0 <= j < |prefixes[1..]| && prefixes[1..][j] <= s;
      assert prefixes[1..][j] == prefixes[j + 1];
      assert s[0] == prefixes[j + 1][0];
      assert Clash(prefixes[0], prefixes[j + 1]);
      var k :| 0 <= k < |prefixes[0]| && k < |prefixes[j + 1]| && prefixes[0][k] != prefixes[j + 1][k];
      assert s[k] == prefixes[j + 1][k];
      NotPrefixAt(prefixes[0], s, k);
    }
  }

  lemma {:induction false} FieldUnique(p: string, a: Option<string>, b: Option<string>, s: string, t: string)
    requires (a.Some? ==> Over(a.value, IDChar)) && (b.Some? ==> Over(b.value, IDChar))
    requires !(p <= s) && !(p <= t) && EndsRun(s, IDChar) && EndsRun(t, IDChar)
    requires Field(p, a) + s == Field(p, b) + t
    ensures a == b && s == t
  {
    assert a.Some? ==> p <= Field(p, a) + s;
    assert b.Some? ==> p <= Field(p, b) + t;
    assert a.None? ==> Field(p, a) + s == s;
    assert b.None? ==> Field(p, b) + t == t;
    if a.Some? && b.Some? {
      assert Field(p, a) + s == p + (a.value + s) && Field(p, b) + t == p + (b.value + t);
      SameLength(p, p, a.value + s, b.value + t);
      RunUnique(a.value, b.value, s, t, IDChar);
    }
  }

  lemma {:induction false} FieldsUnique(
    prefixes: seq<string>, a: seq<Option<string>>, b: seq<Option<string>>, x: string, y: string)
    requires |prefixes| == |a| == |b| && GoodPrefixes(prefixes) && GoodValues(a) && GoodValues(b)
    requires StartsWithSlash(x) && StartsWithSlash(y)
    requires Fields(prefixes, a) + x == Fields(prefixes, b) + y
    ensures a == b && x == y
  {
    if prefixes == [] {
      assert Fields(prefixes, a) + x == x && Fields(prefixes, b) + y == y;
    } else {
      var s, t := Fields(prefixes[1..], a[1..]) + x, Fields(prefixes[1..], b[1..]) + y;
      FieldsNotMistaken(prefixes, a, x);
      FieldsNotMistaken(prefixes, b, y);
      Append(Field(prefixes[0], a[0]), Fields(prefixes[1..], a[1..]), x);
      Append(Field(prefixes[0], b[0]), Fields(prefixes[1..], b[1..]), y);
      FieldUnique(prefixes[0], a[0], b[0], s, t);
      FieldsUnique(prefixes[1..], a[1..], b[1..], x, y);
      assert a == [a[0]] + a[1..] && b == [b[0]] + b[1..];
    }
  }

  // ----- directories -----

  datatype Meta = Meta(uid: nat, gid: nat, perm: nat)

  function MetaText(m: Meta): string {
    Decimal(m.uid) + ":" + Decimal(m.gid) + ":" + Decimal(m.perm)
  }

  function Dirs(targets: seq<string>, dirs: seq<Option<Meta>>): string
    requires |targets| == |dirs|
  {
    if targets == [] then ""
    else targets[0] + DirText(dirs[0]) + Dirs(targets[1..], dirs[1..])
  }

  function DirText(d: Option<Meta>): string {
    if d.Some? then MetaText(d.value) else ""
  }

  lemma {:induction false} NumberUnique(m: nat, n: nat, x: string, y: string)
    requires EndsRun(x, IsDigit) && EndsRun(y, IsDigit) && Decimal(m) + x == Decimal(n) + y
    ensures m == n && x == y
  {
    RunUnique(Decimal(m), Decimal(n), x, y, IsDigit);
    DecimalInjective(m, n);
  }

  lemma {:induction false} MetaSplit(m: Meta, x: string)
    ensures MetaText(m) + x == Decimal(m.uid) + (":" + (Decimal(m.gid) + (":" + (Decimal(m.perm) + x))))
  {
    var u, g, p := Decimal(m.uid), Decimal(m.gid), Decimal(m.perm);
    Regroup(u + ":" + g, ":", p, x);
    Regroup(u, ":", g, ":" + (p + x));
  }

  lemma {:induction false} MetaUnique(a: Meta, b: Meta, x: string, y: string)
    requires EndsRun(x, IsDigit) && EndsRun(y, IsDigit) && MetaText(a) + x == MetaText(b) + y
    ensures a == b && x == y
  {
    var ra, rb := Decimal(a.perm) + x, Decimal(b.perm) + y;
    var qa, qb := Decimal(a.gid) + (":" + ra), Decimal(b.gid) + (":" + rb);
    MetaSplit(a, x);
    MetaSplit(b, y);
    NumberUnique(a.uid, b.uid, ":" + qa, ":" + qb);
    SameLength(":", ":", qa, qb);
    NumberUnique(a.gid, b.gid, ":" + ra, ":" + rb);
    SameLength(":", ":", ra, rb);
    NumberUnique(a.perm, b.perm, x, y);
  }

  lemma {:induction false} DirUnique(a: Option<Meta>, b: Option<Meta>, s: string, t: string)
    requires StartsWithSlash(s) && StartsWithSlash(t) && DirText(a) + s == DirText(b) + t
    ensures a == b && s == t
  {
    assert a.None? ==> DirText(a) + s == s;
    assert b.None? ==> DirText(b) + t == t;
    assert a.Some? ==> (DirText(a) + s)[0] == Decimal(a.value.uid)[0];
    assert b.Some? ==> (DirText(b) + t)[0] == Decimal(b.value.uid)[0];
    if a.Some? && b.Some? {
      MetaUnique(a.value, b.value, s, t);
    }
  }

  lemma {:induction false} DirsUnique(
    targets: seq<string>, a: seq<Option<Meta>>, b: seq<Option<Meta>>, x: string, y: string)
    requires |targets| == |a| == |b| && (forall i :: 0 <= i < |targets| ==> StartsWithSlash(targets[i]))
    requires StartsWithSlash(x) && StartsWithSlash(y)
    requires Dirs(targets, a) + x == Dirs(targets, b) + y
    ensures a == b && x == y
  {
    if targets == [] {
      assert Dirs(targets, a) + x == x && Dirs(targets, b) + y == y;
    } else {
      var s, t := Dirs(targets[1..], a[1..]) + x, Dirs(targets[1..], b[1..]) + y;
      Regroup(targets[0], DirText(a[0]), Dirs(targets[1..], a[1..]), x);
      Regroup(targets[0], DirText(b[0]), Dirs(targets[1..], b[1..]), y);
      SameLength(targets[0], targets[0], DirText(a[0]) + s, DirText(b[0]) + t);
      DirUnique(a[0], b[0], s, t);
      DirsUnique(targets[1..], a[1..], b[1..], x, y);
      assert a == [a[0]] + a[1..] && b == [b[0]] + b[1..];
    }
  }

  // ----- files -----

  const SUM_BYTES: nat := 32

  /** A present file adds its name again, a NUL and its 32-byte digest. */
  function Files(targets: seq<string>, digests: seq<Option<string>>): string
    requires |targets| == |digests|
  {
    if targets == [] then ""
    else targets[0] + FileText(targets[0], digests[0]) + Files(targets[1..], digests[1..])
  }

  function FileText(target: string, digest: Option<string>): string {
    if digest.Some? then target + "\0" + digest.value else ""
  }

  ghost predicate GoodTargets(targets: seq<string>) {
    && (forall i :: 0 <= i < |targets| ==> StartsWithSlash(targets[i]) && '\0' !in targets[i])
    && forall i :: 0 < i < |targets| ==> !(targets[i] <= targets[i - 1])
  }

  ghost predicate GoodDigests(digests: seq<Option<string>>) {
    forall i :: 0 <= i < |digests| && digests[i].Some? ==> |digests[i].value| == SUM_BYTES
  }

  /** The stream ends, or continues with something that is not a path. */
  ghost predicate NoSlash(x: string) {
    x == "" || x[0] != '/'
  }

  /** After an absent file the remainder cannot be read as that file's fingerprint. */
  lemma {:induction false} FileNotMistaken(targets: seq<string>, digests: seq<Option<string>>, x: string)
    requires |targets| == |digests| && targets != [] && GoodTargets(targets) && NoSlash(x)
    ensures !(targets[0] + "\0" <= Files(targets[1..], digests[1..]) + x)
  {
    var t, s := targets[0], Files(targets[1..], digests[1..]) + x;
    if |targets| > 1 {
      var next := targets[1];
      assert targets[1..][0] == next && next <= s;
      assert !(targets[1] <= targets[1 - 1]);
      if |next| > |t| {
        assert s[|t|] == next[|t|] && next[|t|] in next;
        NotPrefixAt(t + "\0", s, |t|);
      } else {
        var k := FirstDifference(next, t);
        assert s[k] == next[k];
        NotPrefixAt(t + "\0", s, k);
      }
    } else {
      assert targets[1..] == [] && s == x;
      NotPrefixAt(t + "\0", s, 0);
    }
  }

  lemma {:induction false} FirstDifference(p: string, s: string) returns (k: nat)
    requires !(p <= s) && |p| <= |s|
    ensures k < |p| && p[k] != s[k]
  {
    k :| 0 <= k < |p| && p[k] != s[k];
  }

  lemma {:induction false} FileUnique(t: string, a: Option<string>, b: Option<string>, x: string, y: string)
    requires (a.Some? ==> |a.value| == SUM_BYTES) && (b.Some? ==> |b.value| == SUM_BYTES)
    requires !(t + "\0" <= x) && !(t + "\0" <= y)
    requires FileText(t, a) + x == FileText(t, b) + y
    ensures a == b && x == y
  {
    assert a.Some? ==> t + "\0" <= FileText(t, a) + x;
    assert b.Some? ==> t + "\0" <= FileText(t, b) + y;
    assert a.None? ==> FileText(t, a) + x == x;
    assert b.None? ==> FileText(t, b) + y == y;
    if a.Some? && b.Some? {
      SameLength(FileText(t, a), FileText(t, b), x, y);
      SameLength(t + "\0", t + "\0", a.value, b.value);
    }
  }

  lemma {:induction false} FilesUnique(
    targets: seq<string>, a: seq<Option<string>>, b: seq<Option<string>>, x: string, y: string)
    requires |targets| == |a| == |b| && GoodTargets(targets) && GoodDigests(a) && GoodDigests(b)
    requires NoSlash(x) && NoSlash(y)
    requires Files(targets, a) + x == Files(targets, b) + y
    ensures a == b && x == y
  {
    if targets == [] {
      assert Files(targets, a) + x == x && Files(targets, b) + y == y;
    } else {
      var t := targets[0];
      var s, r := Files(targets[1..], a[1..]) + x, Files(targets[1..], b[1..]) + y;
      Regroup(t, FileText(t, a[0]), Files(targets[1..], a[1..]), x);
      Regroup(t, FileText(t, b[0]), Files(targets[1..], b[1..]), y);
      SameLength(t, t, FileText(t, a[0]) + s, FileText(t, b[0]) + r);
      FileNotMistaken(targets, a, x);
      FileNotMistaken(targets, b, y);
      FileUnique(t, a[0], b[0], s, r);
      FilesUnique(targets[1..], a[1..], b[1..], x, y);
      assert a == [a[0]] + a[1..] && b == [b[0]] + b[1..];
    }
  }

  lemma {:induction false} GoodConcat(a: seq<string>, b: seq<string>)
    requires GoodTargets(a) && GoodTargets(b) && (a != [] && b != [] ==> !(b[0] <= a[|a| - 1]))
    ensures GoodTargets(a + b)
  {
    var c := a + b;
    forall i | 0 < i < |c|
      ensures !(c[i] <= c[i - 1])
    {
      if i < |a| {
        assert !(a[i] <= a[i - 1]);
      } else if i > |a| {
        assert !(b[i - |a|] <= b[i - |a| - 1]);
      }
    }
  }

  // ----- active units -----

  function Actives(units: seq<string>): string {
    if units == [] then "" else "active:" + units[0] + Actives(units[1..])
  }

  lemma {:induction false} ActivesUnique(known: seq<string>, a: seq<string>, b: seq<string>)
    requires forall i, j :: 0 <= i < j < |known| ==> Clash(known[i], known[j])
    requires (forall u :: u in a ==> u in known) && (forall u :: u in b ==> u in known)
    requires Actives(a) == Actives(b)
    ensures a == b
  {
    assert a != [] ==> |Actives(a)| >= 7;
    assert b != [] ==> |Actives(b)| >= 7;
    if a != [] && b != [] {
      var ra, rb := Actives(a[1..]), Actives(b[1..]);
      assert Actives(a) == "active:" + (a[0] + ra) && Actives(b) == "active:" + (b[0] + rb);
      SameLength("active:", "active:", a[0] + ra, b[0] + rb);
      KnownUnique(known, a[0], b[0], ra, rb);
      SameLength(a[0], b[0], ra, rb);
      ActivesUnique(known, a[1..], b[1..]);
      assert a == [a[0]] + a[1..] && b == [b[0]] + b[1..];
    }
  }

  lemma {:induction false} KnownUnique(known: seq<string>, a: string, b: string, x: string, y: string)
    requires forall i, j :: 0 <= i < j < |known| ==> Clash(known[i], known[j])
    requires a in known && b in known && a + x == b + y
    ensures a == b
  {
    var i :| 0 <= i < |known| && known[i] == a;
    var j :| 0 <= j < |known| && known[j] == b;
    if Clash(a, b) {
      ClashDiffers(a, b, x, y);
    } else if Clash(b, a) {
      ClashDiffers(b, a, y, x);
    }
  }

  // ----- release entries -----

  /** `name NUL checksum NUL` for each member, in the given order. */
  function Entries(keys: seq<string>, m: map<string, string>): string
    requires forall k :: k in keys ==> k in m
  {
    if keys == [] then "" else Entry(keys[0], m[keys[0]]) + Entries(keys[1..], m)
  }

  function Entry(name: string, checksum: string): string {
    name + "\0" + checksum + "\0"
  }

  predicate NoNul(c: char) {
    c != '\0'
  }

  lemma {:induction false} NulUnique(a: string, b: string, x: string, y: string)
    requires Over(a, NoNul) && Over(b, NoNul) && a + "\0" + x == b + "\0" + y
    ensures a == b && x == y
  {
    assert a + "\0" + x == a + ("\0" + x) && b + "\0" + y == b + ("\0" + y);
    RunUnique(a, b, "\0" + x, "\0" + y, NoNul);
    SameLength("\0", "\0", x, y);
  }

  ghost predicate NulFree(keys: seq<string>, m: map<string, string>) {
    forall k :: k in keys ==> k in m && Over(k, NoNul) && Over(m[k], NoNul)
  }

  lemma {:induction false} EntriesUnique(j: seq<string>, m: map<string, string>, k: seq<string>, n: map<string, string>)
    requires NulFree(j, m) && NulFree(k, n) && Entries(j, m) == Entries(k, n)
    ensures j == k && forall x :: x in j ==> m[x] == n[x]
  {
    assert j != [] ==> |Entries(j, m)| >= 2;
    assert k != [] ==> |Entries(k, n)| >= 2;
    if j != [] && k != [] {
      var rj, rk := Entries(j[1..], m), Entries(k[1..], n);
      assert Entry(j[0], m[j[0]]) + rj == j[0] + "\0" + (m[j[0]] + "\0" + rj);
      assert Entry(k[0], n[k[0]]) + rk == k[0] + "\0" + (n[k[0]] + "\0" + rk);
      NulUnique(j[0], k[0], m[j[0]] + "\0" + rj, n[k[0]] + "\0" + rk);
      NulUnique(m[j[0]], n[k[0]], rj, rk);
      EntriesUnique(j[1..], m, k[1..], n);
      assert j == [j[0]] + j[1..] && k == [k[0]] + k[1..];
    }
  }
}

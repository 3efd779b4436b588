/** Cycles in canonical rotation, each reported once (graph/graph.go). */
module Cycles {
  import opened Graphs
  import opened StringOrder

  type Cycle = seq<string>

  // ----- Rotations -----

  ghost function Rotated(c: Cycle, k: nat): Cycle
    requires k <= |c|
  {
    c[k..] + c[..k]
  }

  ghost predicate IsRotation(c: Cycle, d: Cycle) {
    exists k: nat :: k <= |c| && d == Rotated(c, k)
  }

  ghost predicate IsLeast(c: Cycle, k: nat) {
    k < |c| && forall i :: 0 <= i < |c| ==> !Smaller(c[i], c[k])
  }

  /** d is c from its first least name on. */
  ghost predicate IsNormal(c: Cycle, d: Cycle) {
    if c == [] then d == []
    else exists k: nat :: IsLeast(c, k) && d == Rotated(c, k) && forall i :: 0 <= i < k ==> Smaller(c[k], c[i])
  }

  method NormalizeCycle(c: Cycle) returns (out: Cycle)
    ensures IsNormal(c, out)
  {
    if |c| == 0 {
      return c;
    }
    var minIdx := LeastIndex(c);
    out := [];
    for i := 0 to |c|
      invariant |out| == i && forall j :: 0 <= j < i ==> out[j] == c[(minIdx + j) % |c|]
    {
      out := out + [c[(minIdx + i) % |c|]];
    }
    WrappedIsRotated(c, minIdx, out);
  }

  /** The search for the least name; among equal names the first wins. */
  method LeastIndex(c: Cycle) returns (minIdx: nat)
    requires c != []
    ensures IsLeast(c, minIdx) && forall j :: 0 <= j < minIdx ==> Smaller(c[minIdx], c[j])
  {
    minIdx := 0;
    for i := 0 to |c|
      invariant minIdx < |c| && (i > 0 ==> minIdx < i) && (i == 0 ==> minIdx == 0)
      invariant forall j :: 0 <= j < i ==> !Smaller(c[j], c[minIdx])
      invariant forall j :: 0 <= j < minIdx ==> Smaller(c[minIdx], c[j])
    {
      if Smaller(c[i], c[minIdx]) {
        NewLeast(c, i, minIdx);
        minIdx := i;
      }
    }
  }

  lemma WrappedIsRotated(c: Cycle, k: nat, out: Cycle)
    requires k < |c| == |out| && forall i :: 0 <= i < |c| ==> out[i] == c[(k + i) % |c|]
    ensures out == Rotated(c, k)
  {
    forall i | 0 <= i < |c| ensures out[i] == Rotated(c, k)[i] {
      Wrapped(k, i, |c|);
      RotatedAt(c, k, i);
    }
  }

  lemma Wrapped(k: nat, i: nat, n: nat)
    requires k < n && i < n
    ensures (k + i) % n == if k + i < n then k + i else k + i - n
  {
    if k + i >= n {
      assert (k + i) % n == (k + i - n) % n;
    }
  }

  lemma NewLeast(c: Cycle, i: nat, m: nat)
    requires i < |c| && m < |c| && Smaller(c[i], c[m]) && (m < i || i == 0)
    requires forall j :: 0 <= j < i ==> !Smaller(c[j], c[m])
    ensures forall j :: 0 <= j <= i ==> !Smaller(c[j], c[i])
    ensures forall j :: 0 <= j < i ==> Smaller(c[i], c[j])
  {
    forall j | 0 <= j < i ensures Smaller(c[i], c[j]) {
      SmallerTotal(c[j], c[m]);
      if c[j] != c[m] {
        SmallerTransitive(c[i], c[m], c[j]);
      }
    }
    forall j | 0 <= j <= i ensures !Smaller(c[j], c[i]) {
      SmallerTotal(c[j], c[i]);
    }
  }

  lemma RotatedAt(c: Cycle, k: nat, i: nat)
    requires k <= |c| && i < |c|
    ensures Rotated(c, k)[i] == c[if k + i < |c| then k + i else k + i - |c|]
  {
  }

  lemma RotatedTwice(c: Cycle, j: nat, k: nat)
    requires j <= |c| && k <= |c|
    ensures Rotated(Rotated(c, j), k) == Rotated(c, if j + k <= |c| then j + k else j + k - |c|)
  {
    var m := if j + k <= |c| then j + k else j + k - |c|;
    forall i | 0 <= i < |c| ensures Rotated(Rotated(c, j), k)[i] == Rotated(c, m)[i] {
      RotatedAt(Rotated(c, j), k, i);
      RotatedAt(c, m, i);
      RotatedAt(c, j, if k + i < |c| then k + i else k + i - |c|);
    }
  }

  lemma RotationBack(c: Cycle, d: Cycle)
    requires IsRotation(c, d)
    ensures IsRotation(d, c)
  {
    var k: nat :| k <= |c| && d == Rotated(c, k);
    RotatedTwice(c, k, |c| - k);
    assert Rotated(c, |c|) == c;
    assert c == Rotated(d, |c| - k);
  }

  lemma RotationOn(c: Cycle, d: Cycle, e: Cycle)
    requires IsRotation(c, d) && IsRotation(d, e)
    ensures IsRotation(c, e)
  {
    var j: nat :| j <= |c| && d == Rotated(c, j);
    var k: nat :| k <= |d| && e == Rotated(d, k);
    RotatedTwice(c, j, k);
  }

  lemma NormalIsRotation(c: Cycle, d: Cycle)
    requires IsNormal(c, d)
    ensures IsRotation(c, d)
  {
    if c == [] {
      assert d == Rotated(c, 0);
    }
  }

  lemma RotatedMembers(c: Cycle, k: nat, x: string)
    requires k <= |c|
    ensures x in c <==> x in Rotated(c, k)
  {
    assert c == c[..k] + c[k..];
  }

  lemma SameStart(c: Cycle, j: nat, k: nat)
    requires Distinct(c) && j < |c| && k < |c| && Rotated(c, j)[0] == Rotated(c, k)[0]
    ensures j == k
  {
  }

  lemma RotatedReduced(c: Cycle, k: nat) returns (j: nat)
    requires c != [] && k <= |c|
    ensures j < |c| && Rotated(c, j) == Rotated(c, k)
  {
    j := if k == |c| then 0 else k;
    assert Rotated(c, |c|) == c == Rotated(c, 0);
  }

  /** A normal form starts with the one least name. */
  lemma NormalStart(c: Cycle, n: Cycle, x: string)
    requires c != [] && IsNormal(c, n) && x in c
    ensures |n| == |c| && n[0] in c && !Smaller(x, n[0])
  {
    var k: nat :| IsLeast(c, k) && n == Rotated(c, k);
    assert n[0] == c[k];
  }

  /** Rotations of one cycle without repeated names that start with the same name are equal. */
  lemma SameStartSame(c: Cycle, n: Cycle, m: Cycle)
    requires c != [] && Distinct(c) && IsRotation(c, n) && IsRotation(c, m) && n[0] == m[0]
    ensures n == m
  {
    var i: nat :| i <= |c| && n == Rotated(c, i);
    var j: nat :| j <= |c| && m == Rotated(c, j);
    var i1 := RotatedReduced(c, i);
    var j1 := RotatedReduced(c, j);
    SameStart(c, i1, j1);
  }

  lemma RotationMembers(c: Cycle, d: Cycle, x: string)
    requires IsRotation(c, d)
    ensures x in c <==> x in d
  {
    var k: nat :| k <= |c| && d == Rotated(c, k);
    RotatedMembers(c, k, x);
  }

  /** Cycles without repeated names have the same normal form exactly when each is a rotation of the other. */
  lemma NormalFormIsCanonical(c: Cycle, d: Cycle, n: Cycle, m: Cycle)
    requires Distinct(c) && Distinct(d) && IsNormal(c, n) && IsNormal(d, m)
    ensures n == m <==> IsRotation(c, d)
  {
    NormalIsRotation(c, n);
    NormalIsRotation(d, m);
    if n == m {
      RotationBack(d, m);
      RotationOn(c, n, d);
    }
    if IsRotation(c, d) && c != [] {
      RotationOn(c, d, m);
      RotationMembers(c, n, n[0]);
      RotationMembers(c, d, n[0]);
      RotationMembers(d, m, m[0]);
      RotationMembers(c, d, m[0]);
      NormalStart(c, n, m[0]);
      NormalStart(d, m, n[0]);
      SmallerTotal(n[0], m[0]);
      SameStartSame(c, n, m);
    }
  }

  /** For any names, repeated or not: all rotations of a cycle have its normal form exactly when all its rotations
      to a least name are equal, for instance when the least name occurs once. */
  lemma NormalFormsAgree(c: Cycle, n: Cycle)
    requires c != [] && IsNormal(c, n)
    ensures (forall d, m :: IsRotation(c, d) && IsNormal(d, m) ==> m == n) <==>
            (forall k: nat :: IsLeast(c, k) ==> Rotated(c, k) == n)
  {
    if forall d, m :: IsRotation(c, d) && IsNormal(d, m) ==> m == n {
      forall k: nat | IsLeast(c, k) ensures Rotated(c, k) == n {
        LeastIsNormal(c, k);
        assert IsRotation(c, Rotated(c, k));
      }
    }
    if forall k: nat :: IsLeast(c, k) ==> Rotated(c, k) == n {
      forall d, m | IsRotation(c, d) && IsNormal(d, m) ensures m == n {
        var k := NormalFromLeast(c, d, m);
      }
    }
  }

  /** A rotation to a least name is its own normal form. */
  lemma LeastIsNormal(c: Cycle, k: nat)
    requires IsLeast(c, k)
    ensures IsNormal(Rotated(c, k), Rotated(c, k))
  {
    var d := Rotated(c, k);
    assert d[0] == c[k];
    forall i | 0 <= i < |d| ensures !Smaller(d[i], d[0]) {
      RotatedAt(c, k, i);
    }
    assert IsLeast(d, 0) && Rotated(d, 0) == d;
  }

  /** The normal form of a rotation of c is c rotated to one of its least names. */
  lemma NormalFromLeast(c: Cycle, d: Cycle, m: Cycle) returns (k: nat)
    requires c != [] && IsRotation(c, d) && IsNormal(d, m)
    ensures IsLeast(c, k) && m == Rotated(c, k)
  {
    NormalIsRotation(d, m);
    RotationOn(c, d, m);
    var j: nat :| j <= |c| && m == Rotated(c, j);
    k := RotatedReduced(c, j);
    assert m[0] == c[k];
    assert d != [];
    forall i | 0 <= i < |c| ensures !Smaller(c[i], c[k]) {
      RotationMembers(c, d, c[i]);
      NormalStart(d, m, c[i]);
    }
  }

  // ----- Keys -----

  const ARROW := "->"

  function KeyOf(c: Cycle): string {
    Join(c, ARROW)
  }

  ghost predicate NoArrow(c: Cycle) {
    forall n :: n in c ==> FreeOf(n, ARROW)
  }

  lemma StartsWithArrow(s: string, i: nat)
    requires i <= |s|
    ensures ARROW <= s[i..] <==> i + 1 < |s| && s[i] == '-' && s[i + 1] == '>'
  {
    assert ARROW == ['-', '>'];
  }

  /** The first arrow of a text that starts with an arrow-free name is the one after the name. */
  lemma ArrowAfter(n: string, rest: string, i: nat)
    requires FreeOf(n, ARROW) && i < |n|
    ensures !(ARROW <= (n + ARROW + rest)[i..])
  {
    StartsWithArrow(n + ARROW + rest, i);
    StartsWithArrow(n, i);
  }

  lemma ArrowInside(b: string, y: string)
    ensures !FreeOf(b + ARROW + y, ARROW)
  {
    assert (b + ARROW + y)[|b|..] == ARROW + y;
  }

  /** A name that starts with a, an arrow and z is split at that arrow. */
  lemma LongerName(a: string, x: string, b: string, y: string) returns (z: string)
    requires FreeOf(a, ARROW) && a + ARROW + x == b + ARROW + y && |a| < |b|
    ensures x == z + ARROW + y
  {
    var s := a + ARROW + x;
    assert s[|a|] == '-' && s[|a| + 1] == '>';
    assert s == b + ARROW + y && s[|b|] == '-';
    z := b[|a| + 2..];
    assert x == s[|a| + 2..];
    assert b == s[..|b|];
  }

  lemma ShorterName(a: string, x: string, b: string, y: string)
    requires FreeOf(a, ARROW) && a + ARROW + x == b + ARROW + y
    ensures |a| <= |b| && (|a| == |b| ==> a == b && x == y)
  {
    var s := a + ARROW + x;
    assert ARROW <= s[|b|..] by { assert s[|b|..] == ARROW + y; }
    if |b| < |a| {
      ArrowAfter(a, x, |b|);
    }
    assert a == s[..|a|] && x == s[|a| + 2..];
    assert b == s[..|b|] && y == s[|b| + 2..];
  }

  /** No other cycle that is at least as long has the key of an arrow-free cycle. */
  lemma {:induction false} NoLongerTwin(c: Cycle, d: Cycle)
    requires c != [] && NoArrow(c) && |d| >= |c| && KeyOf(c) == KeyOf(d)
    ensures c == d
    decreases |c|
  {
    assert c[0] in c;
    assert c == [c[0]] + c[1..] && d == [d[0]] + d[1..];
    if |c| == 1 {
      if |d| > 1 {
        ArrowInside(d[0], KeyOf(d[1..]));
      }
    } else {
      var x, y := KeyOf(c[1..]), KeyOf(d[1..]);
      ShorterName(c[0], x, d[0], y);
      if |c[0]| == |d[0]| {
        NoLongerTwin(c[1..], d[1..]);
      } else {
        var z := LongerName(c[0], x, d[0], y);
        var e := [z] + d[1..];
        assert e[1..] == d[1..];
        NoLongerTwin(c[1..], e);
      }
    }
  }

  /** Over arrow-free names the key determines the cycle. */
  lemma KeysTellApart(c: Cycle, d: Cycle)
    requires c != [] && d != [] && NoArrow(c) && NoArrow(d) && KeyOf(c) == KeyOf(d)
    ensures c == d
  {
    if |d| >= |c| {
      NoLongerTwin(c, d);
    } else {
      NoLongerTwin(d, c);
    }
  }

  lemma KeyCons(n: string, c: Cycle)
    ensures KeyOf([n] + c) == if c == [] then n else n + ARROW + KeyOf(c)
  {
    assert ([n] + c)[1..] == c;
  }

  lemma SplitFirst(u: string, v: string, rest: Cycle)
    ensures KeyOf([u, v] + rest) == KeyOf([u + ARROW + v] + rest)
  {
    assert [u, v] + rest == [u] + ([v] + rest);
    KeyCons(u, [v] + rest);
    KeyCons(v, rest);
    KeyCons(u + ARROW + v, rest);
    if rest != [] {
      Associated(u, v, KeyOf(rest));
    }
  }

  /** Splitting a name at an arrow gives a longer cycle with the same key. */
  lemma {:induction false} SplitName(c: Cycle, k: nat, i: nat) returns (d: Cycle)
    requires k < |c| && i <= |c[k]| && ARROW <= c[k][i..]
    ensures |d| == |c| + 1 && KeyOf(d) == KeyOf(c)
  {
    var rest := c[1..];
    assert c == [c[0]] + rest;
    if k == 0 {
      var u, v := c[0][..i], c[0][i + 2..];
      StartsWithArrow(c[0], i);
      assert c[0] == u + ARROW + v;
      SplitFirst(u, v, rest);
      d := [u, v] + rest;
    } else {
      var e := SplitName(rest, k - 1, i);
      KeyCons(c[0], rest);
      KeyCons(c[0], e);
      d := [c[0]] + e;
    }
  }

  lemma Associated(u: string, v: string, k: string)
    ensures u + ARROW + (v + ARROW + k) == u + ARROW + v + ARROW + k
  {
  }

  /** The names of a cycle are arrow-free exactly when no other cycle at least as long has its key; for a cycle of
      one name, exactly when no other cycle has it. */
  lemma KeyIsExclusive(c: Cycle)
    requires c != []
    ensures NoArrow(c) <==> forall d :: |d| >= |c| && KeyOf(d) == KeyOf(c) ==> d == c
  {
    if NoArrow(c) {
      forall d | |d| >= |c| && KeyOf(d) == KeyOf(c) ensures d == c {
        NoLongerTwin(c, d);
      }
    } else {
      var n :| n in c && !FreeOf(n, ARROW);
      var k :| 0 <= k < |c| && c[k] == n;
      var i :| 0 <= i <= |n| && ARROW <= n[i..];
      var d := SplitName(c, k, i);
    }
  }

  /** A name is arrow-free exactly when the key of its one-name cycle belongs to no other cycle. */
  lemma ArrowInName(n: string)
    ensures FreeOf(n, ARROW) <==> forall d :: d != [] && KeyOf(d) == KeyOf([n]) ==> d == [n]
  {
    assert NoArrow([n]) <==> FreeOf(n, ARROW);
    KeyIsExclusive([n]);
  }

  ghost predicate SameKey(c: Cycle, d: Cycle) {
    KeyOf(c) == KeyOf(d)
  }

  ghost predicate OnePerKey(result: seq<Cycle>) {
    forall i, j :: 0 <= i < j < |result| ==> !SameKey(result[i], result[j])
  }

  ghost predicate HasKey(result: seq<Cycle>, key: string) {
    exists r :: r in result && KeyOf(r) == key
  }

  lemma HasKeySnoc(result: seq<Cycle>, c: Cycle, key: string)
    ensures HasKey(result + [c], key) <==> HasKey(result, key) || KeyOf(c) == key
  {
    if HasKey(result, key) {
      var r :| r in result && KeyOf(r) == key;
      assert r in result + [c];
    }
    assert c in result + [c];
  }

  lemma OnePerKeySnoc(result: seq<Cycle>, c: Cycle)
    requires OnePerKey(result) && !HasKey(result, KeyOf(c))
    ensures OnePerKey(result + [c])
  {
    forall i | 0 <= i < |result| ensures !SameKey(result[i], c) {
      assert result[i] in result;
    }
  }

  /** The first cycle of each key, in order. */
  method DeduplicateCycles(cycles: seq<Cycle>) returns (result: seq<Cycle>)
    ensures OnePerKey(result)
    ensures forall c :: c in result ==> c in cycles
    ensures forall c :: c in cycles ==> HasKey(result, KeyOf(c))
  {
    var seen: set<string> := {};
    result := [];
    for n := 0 to |cycles|
      invariant forall k :: k in seen <==> HasKey(result, k)
      invariant OnePerKey(result)
      invariant forall c :: c in result ==> c in cycles[..n]
      invariant forall i :: 0 <= i < n ==> KeyOf(cycles[i]) in seen
    {
      var c := cycles[n];
      var key := KeyOf(c);
      if key !in seen {
        OnePerKeySnoc(result, c);
        forall k ensures HasKey(result + [c], k) <==> HasKey(result, k) || k == key { HasKeySnoc(result, c, k); }
        seen := seen + {key};
        result := result + [c];
      }
    }
  }

  /** Normalized cycles of distinct arrow-free names: no two of the result are rotations of each other. */
  lemma EachCycleOnce(raw: seq<Cycle>, cycles: seq<Cycle>, result: seq<Cycle>, i: nat, j: nat)
    requires |cycles| == |raw| && forall n :: 0 <= n < |raw| ==>
             IsNormal(raw[n], cycles[n]) && Distinct(raw[n]) && NoArrow(raw[n])
    requires forall n :: 0 <= n < |raw| ==> raw[n] != []
    requires OnePerKey(result)
    requires forall c :: c in result ==> c in cycles
    requires i < j < |result|
    ensures !IsRotation(result[i], result[j])
  {
    assert !SameKey(result[i], result[j]);
    if IsRotation(result[i], result[j]) {
      assert result[i] in cycles && result[j] in cycles;
      var n :| 0 <= n < |cycles| && cycles[n] == result[i];
      var m :| 0 <= m < |cycles| && cycles[m] == result[j];
      NormalIsRotation(raw[n], cycles[n]);
      NormalIsRotation(raw[m], cycles[m]);
      RotationOn(raw[n], cycles[n], cycles[m]);
      RotationBack(raw[m], cycles[m]);
      RotationOn(raw[n], cycles[m], raw[m]);
      NormalFormIsCanonical(raw[n], raw[m], cycles[n], cycles[m]);
    }
  }

  /** ... and every detected cycle is a rotation of one in the result. */
  lemma NoCycleLost(raw: seq<Cycle>, cycles: seq<Cycle>, result: seq<Cycle>, n: nat)
    requires |cycles| == |raw| && forall k :: 0 <= k < |raw| ==>
             raw[k] != [] && IsNormal(raw[k], cycles[k]) && NoArrow(raw[k])
    requires forall c :: c in result ==> c in cycles
    requires forall c :: c in cycles ==> HasKey(result, KeyOf(c))
    requires n < |raw|
    ensures exists r :: r in result && IsRotation(raw[n], r)
  {
    assert cycles[n] in cycles;
    var r :| r in result && KeyOf(r) == KeyOf(cycles[n]);
    var m :| 0 <= m < |cycles| && cycles[m] == r;
    NormalKeeps(raw[n], cycles[n]);
    NormalKeeps(raw[m], cycles[m]);
    KeysTellApart(cycles[n], r);
    NormalIsRotation(raw[n], r);
  }

  lemma NormalKeeps(c: Cycle, d: Cycle)
    requires c != [] && IsNormal(c, d) && NoArrow(c)
    ensures d != [] && NoArrow(d)
  {
    var k: nat :| IsLeast(c, k) && d == Rotated(c, k);
    forall n | n in d ensures n in c {
      RotatedMembers(c, k, n);
    }
  }

  ghost predicate Elementary(raw: seq<Cycle>) {
    forall n :: 0 <= n < |raw| ==> raw[n] != [] && Distinct(raw[n]) && NoArrow(raw[n])
  }

  /** From the cycles the graph library lists: up to rotation each is reported, and only once. */
  method CollectCycles(raw: seq<Cycle>) returns (result: seq<Cycle>)
    ensures Elementary(raw) ==> forall i, j :: 0 <= i < j < |result| ==> !IsRotation(result[i], result[j])
    ensures Elementary(raw) ==> forall c :: c in raw ==> exists r :: r in result && IsRotation(c, r)
    ensures forall r :: r in result ==> exists c :: c in raw && IsNormal(c, r)
  {
    var cycles: seq<Cycle> := [];
    for n := 0 to |raw|
      invariant |cycles| == n && forall k :: 0 <= k < n ==> IsNormal(raw[k], cycles[k])
    {
      var c := NormalizeCycle(raw[n]);
      cycles := cycles + [c];
    }
    result := DeduplicateCycles(cycles);
    forall r | r in result ensures exists c :: c in raw && IsNormal(c, r) {
      var k :| 0 <= k < |cycles| && cycles[k] == r;
      assert raw[k] in raw;
    }
    if Elementary(raw) {
      forall i, j | 0 <= i < j < |result| ensures !IsRotation(result[i], result[j]) {
        EachCycleOnce(raw, cycles, result, i, j);
      }
      forall c | c in raw ensures exists r :: r in result && IsRotation(c, r) {
        var n :| 0 <= n < |raw| && raw[n] == c;
        NoCycleLost(raw, cycles, result, n);
      }
    }
  }
}

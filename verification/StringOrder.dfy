/** The order of Go strings, character by character, and joining with a separator. */
module StringOrder {

  predicate Smaller(s: string, t: string) {
    if t == [] then false
    else if s == [] then true
    else s[0] < t[0] || (s[0] == t[0] && Smaller(s[1..], t[1..]))
  }

  /** s and t agree up to k, where s ends first or has the smaller character. */
  ghost predicate DecidedAt(s: string, t: string, k: nat) {
    k <= |s| && k < |t| && s[..k] == t[..k] && (k == |s| || s[k] < t[k])
  }

  /** The order is decided at the first difference. */
  lemma {:induction false} SmallerIs(s: string, t: string)
    ensures Smaller(s, t) <==> exists k: nat :: DecidedAt(s, t, k)
  {
    if s == [] || t == [] {
      assert t != [] ==> DecidedAt(s, t, 0);
    } else {
      SmallerIs(s[1..], t[1..]);
      if s[0] < t[0] {
        assert DecidedAt(s, t, 0);
      }
      if Smaller(s, t) && s[0] == t[0] {
        var k: nat :| DecidedAt(s[1..], t[1..], k);
        DecidedLater(s, t, k + 1);
      }
      if k: nat :| DecidedAt(s, t, k) {
        if k > 0 {
          assert s[..k][0] == t[..k][0];
          DecidedLater(s, t, k);
        }
      }
    }
  }

  lemma DecidedLater(s: string, t: string, k: nat)
    requires s != [] && t != [] && s[0] == t[0] && k > 0
    ensures DecidedAt(s, t, k) <==> DecidedAt(s[1..], t[1..], k - 1)
  {
    if k <= |s| && k < |t| {
      assert s[..k] == [s[0]] + s[1..][..k - 1] && t[..k] == [t[0]] + t[1..][..k - 1];
      assert s[1..][..k - 1] == s[..k][1..] && t[1..][..k - 1] == t[..k][1..];
    }
  }

  lemma {:induction false} SmallerTotal(s: string, t: string)
    ensures s != t ==> (Smaller(s, t) <==> !Smaller(t, s))
    ensures !Smaller(s, s)
  {
    if s != [] {
      SmallerTotal(s[1..], s[1..]);
    }
    if s != [] && t != [] && s[0] == t[0] {
      SmallerTotal(s[1..], t[1..]);
      if s[1..] == t[1..] {
        assert s == [s[0]] + s[1..] && t == [t[0]] + t[1..];
      }
    }
  }

  lemma {:induction false} SmallerTransitive(s: string, t: string, u: string)
    requires Smaller(s, t) && Smaller(t, u)
    ensures Smaller(s, u)
  {
    if s != [] && s[0] == t[0] && t[0] == u[0] {
      SmallerTransitive(s[1..], t[1..], u[1..]);
    }
  }

  function Join(parts: seq<string>, sep: string): string {
    if parts == [] then "" else if |parts| == 1 then parts[0]
    else parts[0] + sep + Join(parts[1..], sep)
  }

  /** sep does not occur in s. */
  ghost predicate FreeOf(s: string, sep: string) {
    forall i {:trigger s[i..]} :: 0 <= i <= |s| ==> !(sep <= s[i..])
  }

  lemma {:induction false} JoinSnoc(parts: seq<string>, p: string, sep: string)
    requires parts != []
    ensures Join(parts + [p], sep) == Join(parts, sep) + sep + p
  {
    var all := parts + [p];
    assert all[0] == parts[0];
    if |parts| == 1 {
      assert all[1..] == [p];
    } else {
      JoinSnoc(parts[1..], p, sep);
      assert all[1..] == parts[1..] + [p];
      Regroup(parts[0] + sep, Join(parts[1..], sep), sep, p);
    }
  }

  lemma Regroup(a: string, b: string, c: string, d: string)
    ensures a + (b + c + d) == a + b + c + d
  {
  }

  /** Text added to the last part is added to the whole. */
  lemma JoinGrow(parts: seq<string>, p: string, more: string, sep: string)
    ensures Join(parts + [p + more], sep) == Join(parts + [p], sep) + more
  {
    if parts != [] {
      JoinSnoc(parts, p, sep);
      JoinSnoc(parts, p + more, sep);
      RegroupTwo(Join(parts, sep) + sep, p, more);
    }
  }

  lemma RegroupTwo(a: string, b: string, c: string)
    ensures a + (b + c) == a + b + c
  {
  }
}

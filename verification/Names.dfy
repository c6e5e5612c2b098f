// Sorted sets of names.
module Names {
  // Code-point order, as Python compares strings.
  predicate Before(a: string, b: string) {
    if b == "" then false
    else if a == "" then true
    else a[0] < b[0] || (a[0] == b[0] && Before(a[1..], b[1..]))
  }

  // The first place where they differ decides, and a name comes before its extensions.
  lemma {:induction false} BeforeIff(a: string, b: string)
    ensures Before(a, b) <==>
      exists k :: 0 <= k <= |a| && k < |b| && a[..k] == b[..k] && (k < |a| ==> a[k] < b[k])
  {
    if a == "" || b == "" {
      assert a == "" && b != "" ==> a[..0] == b[..0];
    } else {
      BeforeIff(a[1..], b[1..]);
      if k :| 0 <= k <= |a[1..]| && k < |b[1..]| && a[1..][..k] == b[1..][..k]
              && (k < |a[1..]| ==> a[1..][k] < b[1..][k]) && a[0] == b[0] {
        assert a[..k + 1] == [a[0]] + a[1..][..k] && b[..k + 1] == [b[0]] + b[1..][..k];
      }
      if a[0] < b[0] {
        assert a[..0] == b[..0];
      }
      if k :| 0 <= k <= |a| && k < |b| && a[..k] == b[..k] && (k < |a| ==> a[k] < b[k]) && k > 0 {
        assert a[..k][0] == b[..k][0];
        assert a[1..][..k - 1] == a[..k][1..] && b[1..][..k - 1] == b[..k][1..];
        assert k - 1 <= |a[1..]| && k - 1 < |b[1..]|;
        assert k - 1 < |a[1..]| ==> a[1..][k - 1] < b[1..][k - 1];
      }
    }
  }

  lemma {:induction false} Trichotomy(a: string, b: string)
    ensures a == b <==> !Before(a, b) && !Before(b, a)
    ensures !(Before(a, b) && Before(b, a))
  {
    if a != "" && b != "" {
      Trichotomy(a[1..], b[1..]);
      assert a == [a[0]] + a[1..] && b == [b[0]] + b[1..];
    }
  }

  lemma {:induction false} Transitive(a: string, b: string, c: string)
    requires Before(a, b) && Before(b, c)
    ensures Before(a, c)
  {
    if a != "" && a[0] == b[0] && b[0] == c[0] {
      Transitive(a[1..], b[1..], c[1..]);
    }
  }

  ghost predicate IsLeast(m: string, s: set<string>) {
    m in s && forall x :: x in s ==> !Before(x, m)
  }

  lemma LeastIsUnique(a: string, b: string, s: set<string>)
    requires IsLeast(a, s) && IsLeast(b, s)
    ensures a == b
  {
    Trichotomy(a, b);
  }

  method Least(s: set<string>) returns (m: string)
    requires s != {}
    ensures IsLeast(m, s)
  {
    m :| m in s;
    var rest := s - {m};
    Trichotomy(m, m);
    while rest != {}
      invariant rest <= s && IsLeast(m, s - rest)
      decreases |rest|
    {
      var x :| x in rest;
      forall y | y in s - rest ensures !Before(y, x) || !Before(x, m) {
        if Before(y, x) && Before(x, m) {
          Transitive(y, x, m);
        }
      }
      Trichotomy(x, x);
      Trichotomy(x, m);
      if Before(x, m) {
        m := x;
      }
      rest := rest - {x};
    }
    assert s - rest == s;
  }

  lemma {:induction false} LeastExists(s: set<string>)
    requires s != {}
    ensures exists m :: IsLeast(m, s)
    decreases |s|
  {
    var a :| a in s;
    Trichotomy(a, a);
    if s != {a} {
      LeastExists(s - {a});
      var m :| IsLeast(m, s - {a});
      Trichotomy(a, m);
      if Before(a, m) {
        forall x | x in s ensures !Before(x, a) {
          if Before(x, a) {
            Transitive(x, a, m);
          }
        }
        assert IsLeast(a, s);
      } else {
        assert IsLeast(m, s);
      }
    } else {
      assert IsLeast(a, s);
    }
  }

  ghost function Sorted(s: set<string>): (q: seq<string>)
    decreases |s|
  {
    if s == {} then []
    else
      LeastExists(s);
      var m :| IsLeast(m, s);
      [m] + Sorted(s - {m})
  }

  method SortNames(s: set<string>) returns (q: seq<string>)
    ensures q == Sorted(s)
  {
    q := [];
    var rest := s;
    assert [] + Sorted(s) == Sorted(s);
    while rest != {}
      invariant q + Sorted(rest) == Sorted(s)
      decreases |rest|
    {
      var m := Least(rest);
      SortedFrom(rest, m);
      assert q + ([m] + Sorted(rest - {m})) == (q + [m]) + Sorted(rest - {m});
      q := q + [m];
      rest := rest - {m};
    }
  }

  lemma SortedFrom(s: set<string>, m: string)
    requires IsLeast(m, s)
    ensures Sorted(s) == [m] + Sorted(s - {m})
  {
    var x :| IsLeast(x, s) && Sorted(s) == [x] + Sorted(s - {x});
    LeastIsUnique(m, x, s);
  }

  ghost predicate Distinct(q: seq<string>) {
    forall i, j :: 0 <= i < j < |q| ==> q[i] != q[j]
  }

  // Each name once, in ascending order.
  lemma {:induction false} SortedOrder(s: set<string>)
    ensures forall x :: x in Sorted(s) <==> x in s
    ensures Distinct(Sorted(s)) && |Sorted(s)| == |s|
    ensures Ascending(Sorted(s))
    decreases |s|
  {
    if s != {} {
      LeastExists(s);
      var m :| IsLeast(m, s);
      SortedFrom(s, m);
      var q := Sorted(s - {m});
      SortedOrder(s - {m});
      hide Before, Sorted;
      forall j | 0 <= j < |q| ensures Before(m, q[j]) && m != q[j] {
        assert q[j] in s - {m};
        Trichotomy(m, q[j]);
      }
      ConsOrdered(m, q);
    }
  }

  ghost predicate Ascending(q: seq<string>) {
    forall i, j :: 0 <= i < j < |q| ==> Before(q[i], q[j])
  }

  lemma ConsOrdered(m: string, q: seq<string>)
    requires Ascending(q) && Distinct(q) && forall j :: 0 <= j < |q| ==> Before(m, q[j]) && m != q[j]
    ensures Ascending([m] + q) && Distinct([m] + q)
  {
    hide Before;
  }

  lemma SortedBefore(s: set<string>, i: nat, j: nat)
    requires i < |Sorted(s)| && j < |Sorted(s)|
    ensures i < j ==> Before(Sorted(s)[i], Sorted(s)[j])
  {
    SortedOrder(s);
  }
}

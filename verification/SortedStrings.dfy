/** The sorted key lists the configuration iterates over. */
module SortedStrings {

  /** Byte-wise order, Go's <= on strings. */
  predicate Before(a: string, b: string) {
    a == "" || (b != "" && (a[0] < b[0] || (a[0] == b[0] && Before(a[1..], b[1..]))))
  }

  /** Of two texts that agree before position k, the one that ends there comes first, and
      otherwise the one with the smaller character there. */
  lemma {:induction false} BeforeIs(a: string, b: string, k: nat)
    requires k <= |a| && k <= |b| && a[..k] == b[..k]
    ensures k == |a| ==> Before(a, b)
    ensures k == |b| < |a| ==> !Before(a, b)
    ensures k < |a| && k < |b| && a[k] as int < b[k] as int ==> Before(a, b)
    ensures k < |a| && k < |b| && a[k] as int > b[k] as int ==> !Before(a, b)
  {
    if k > 0 {
      assert a[0] == a[..k][0] == b[..k][0] == b[0];
      assert a[1..][..k - 1] == a[..k][1..] && b[1..][..k - 1] == b[..k][1..];
      BeforeIs(a[1..], b[1..], k - 1);
    }
  }

  lemma {:induction false} BeforeTotal(a: string, b: string)
    ensures Before(a, b) || Before(b, a)
    ensures Before(a, b) && Before(b, a) ==> a == b
  {
    if a != "" && b != "" && a[0] == b[0] {
      BeforeTotal(a[1..], b[1..]);
      assert a == [a[0]] + a[1..] && b == [b[0]] + b[1..];
    }
  }

  lemma {:induction false} BeforeTransitive(a: string, b: string, c: string)
    requires Before(a, b) && Before(b, c)
    ensures Before(a, c)
  {
    if a != "" && a[0] == b[0] && b[0] == c[0] { BeforeTransitive(a[1..], b[1..], c[1..]); }
  }

  ghost predicate IsLeast(m: string, s: set<string>) {
    m in s && forall k | k in s :: Before(m, k)
  }

  lemma {:induction false} LeastExists(s: set<string>)
    requires s != {}
    ensures exists m :: IsLeast(m, s)
    decreases s
  {
    var m :| m in s;
    BeforeTotal(m, m);
    if s == {m} {
      assert IsLeast(m, s);
    } else {
      LeastExists(s - {m});
      var m' :| IsLeast(m', s - {m});
      BeforeTotal(m, m');
      if Before(m', m) {
        assert IsLeast(m', s);
      } else {
        forall k | k in s && k != m ensures Before(m, k) { BeforeTransitive(m, m', k); }
        assert IsLeast(m, s);
      }
    }
  }

  ghost function Least(s: set<string>): (m: string)
    requires s != {}
    ensures IsLeast(m, s)
  {
    LeastExists(s);
    var m :| IsLeast(m, s);
    m
  }

  lemma LeastUnique(m: string, s: set<string>)
    requires IsLeast(m, s)
    ensures s != {} && Least(s) == m
  {
    BeforeTotal(m, Least(s));
  }

  /** The elements of s in order. */
  ghost function Sorted(s: set<string>): seq<string> {
    if s == {} then [] else [Least(s)] + Sorted(s - {Least(s)})
  }

  lemma {:induction false} SortedMembers(s: set<string>)
    ensures forall k :: k in Sorted(s) <==> k in s
  {
    if s != {} { SortedMembers(s - {Least(s)}); }
  }

  /** Every element stands before the ones behind it. */
  lemma {:induction false} SortedOrder(s: set<string>, i: nat, j: nat)
    requires i < j < |Sorted(s)|
    ensures Before(Sorted(s)[i], Sorted(s)[j]) && Sorted(s)[i] != Sorted(s)[j]
  {
    var rest := s - {Least(s)};
    if i == 0 {
      SortedMembers(rest);
      assert Sorted(s)[j] == Sorted(rest)[j - 1];
      assert Sorted(rest)[j - 1] in Sorted(rest);
    } else {
      SortedOrder(rest, i - 1, j - 1);
    }
  }

  /** Sorting by repeated selection of the least remaining key. */
  method SortedKeys(s: set<string>) returns (keys: seq<string>)
    ensures keys == Sorted(s)
  {
    keys := [];
    var rest := s;
    while rest != {}
      invariant Sorted(s) == keys + Sorted(rest)
      decreases rest
    {
      var m := FindLeast(rest);
      LeastUnique(m, rest);
      keys := keys + [m];
      rest := rest - {m};
    }
  }

  method FindLeast(s: set<string>) returns (m: string)
    requires s != {}
    ensures IsLeast(m, s)
  {
    m :| m in s;
    BeforeTotal(m, m);
    var rest := s - {m};
    while rest != {}
      invariant m in s && rest <= s
      invariant forall k | k in s && k !in rest :: Before(m, k)
      decreases rest
    {
      var k :| k in rest;
      rest := rest - {k};
      BeforeTotal(k, m);
      BeforeTotal(k, k);
      if Before(k, m) {
        forall j | j in s && j !in rest && j != k ensures Before(k, j) { BeforeTransitive(k, m, j); }
        m := k;
      }
    }
  }
}

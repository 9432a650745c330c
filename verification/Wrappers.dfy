/** Small shared datatypes and the ascending enumeration that ordered
    collections (`BTreeMap`, `BTreeSet`) iterate in. */
module Wrappers {

  /** The opaque name of a stored object; `<` is the byte order of the digest. */
  type ObjectId = nat

  datatype Option<+T> = None | Some(value: T)

  datatype Result<+T, +E> = Ok(value: T) | Err(error: E)

  ghost predicate Ascending(s: seq<nat>) {
    forall i, j :: 0 <= i < j < |s| ==> s[i] < s[j]
  }

  ghost predicate IsLeast(s: set<nat>, m: nat) {
    m in s && forall x :: x in s ==> m <= x
  }

  lemma {:induction false} LeastExists(s: set<nat>) returns (m: nat)
    requires s != {}
    ensures IsLeast(s, m)
    decreases s
  {
    var a :| a in s;
    var below := set y | y in s && y < a;
    if below == {} {
      m := a;
      forall x | x in s ensures m <= x { assert x !in below; }
    } else {
      m := LeastExists(below);
      forall x | x in s ensures m <= x { assert x in below || a <= x; }
    }
  }

  /** The least element of a non-empty set of ids. */
  function Least(s: set<nat>): (m: nat)
    requires s != {}
    ensures m in s && forall x :: x in s ==> m <= x
  {
    assert exists m :: IsLeast(s, m) by { var m := LeastExists(s); }
    var m :| m in s && forall x :: x in s ==> m <= x;
    m
  }

  /** The elements of a set in ascending order. */
  function Sorted(s: set<nat>): (r: seq<nat>)
    ensures Ascending(r)
    ensures forall x :: x in r <==> x in s
  {
    if s == {} then [] else
      var m := Least(s);
      [m] + Sorted(s - {m})
  }

  /** Ascending order is determined by the elements. */
  lemma {:induction false} AscendingUnique(a: seq<nat>, b: seq<nat>)
    requires Ascending(a) && Ascending(b) && forall x: nat :: x in a <==> x in b
    ensures a == b
    decreases |a|
  {
    assert b == [] || b[0] in b;
    if a != [] {
      assert a[0] in b;
      assert b[0] in a;
      assert a[0] == b[0];
      var s, t := a[1..], b[1..];
      assert a == [a[0]] + s && b == [b[0]] + t;
      assert forall x: nat :: x in s <==> x in a && x != a[0];
      assert forall x: nat :: x in t <==> x in b && x != a[0];
      AscendingUnique(s, t);
    }
  }

  /** Byte order of strings. */
  predicate StringLe(a: string, b: string) {
    a == [] || (b != [] && (a[0] < b[0] || (a[0] == b[0] && StringLe(a[1..], b[1..]))))
  }

  lemma {:induction false} StringLeTotal(a: string, b: string)
    ensures StringLe(a, b) || StringLe(b, a)
    ensures StringLe(a, b) && StringLe(b, a) ==> a == b
  {
    if a != [] && b != [] && a[0] == b[0] {
      StringLeTotal(a[1..], b[1..]);
      assert a == [a[0]] + a[1..] && b == [b[0]] + b[1..];
    }
  }

  lemma {:induction false} StringLeTrans(a: string, b: string, c: string)
    requires StringLe(a, b) && StringLe(b, c)
    ensures StringLe(a, c)
  {
    if a != [] && b != [] && c != [] && a[0] == b[0] == c[0] {
      StringLeTrans(a[1..], b[1..], c[1..]);
    }
  }

  /** The order decided at the first place where the strings differ, an end coming first. */
  lemma {:induction false} StringLeMeans(a: string, b: string)
    ensures StringLe(a, b) <==>
            a <= b || exists i :: 0 <= i < |a| && i < |b| && a[..i] == b[..i] && a[i] < b[i]
    decreases |a|
  {
    if a != [] && b != [] {
      var s, t := a[1..], b[1..];
      assert a == [a[0]] + s && b == [b[0]] + t;
      if a[0] == b[0] {
        StringLeMeans(s, t);
        assert a <= b <==> s <= t;
        if i :| 0 <= i < |s| && i < |t| && s[..i] == t[..i] && s[i] < t[i] {
          assert a[..i + 1] == [a[0]] + s[..i] && b[..i + 1] == [b[0]] + t[..i];
          assert a[i + 1] < b[i + 1];
        }
        if i :| 0 <= i < |a| && i < |b| && a[..i] == b[..i] && a[i] < b[i] {
          assert i > 0;
          assert a[..i][1..] == s[..i - 1] && b[..i][1..] == t[..i - 1];
          assert s[i - 1] < t[i - 1];
        }
      } else {
        assert a[..0] == b[..0];
        if i :| 0 <= i < |a| && i < |b| && a[..i] == b[..i] && a[i] < b[i] {
          if i > 0 { assert a[..i][0] == b[..i][0]; }
        }
      }
    }
  }

  predicate IsFirst(s: set<string>, m: string) {
    m in s && forall x :: x in s ==> StringLe(m, x)
  }

  lemma {:induction false} FirstExists(s: set<string>) returns (m: string)
    requires s != {}
    ensures IsFirst(s, m)
    decreases s
  {
    var a :| a in s;
    var below := set y | y in s && !StringLe(a, y);
    if below == {} {
      m := a;
      forall x | x in s ensures StringLe(m, x) { assert x !in below; }
    } else {
      StringLeTotal(a, a);
      m := FirstExists(below);
      StringLeTotal(a, m);
      forall x | x in s ensures StringLe(m, x) {
        if x !in below { StringLeTrans(m, a, x); }
      }
    }
  }

  /** The first string of a non-empty set in iteration order. */
  function First(s: set<string>): (m: string)
    requires s != {}
    ensures IsFirst(s, m)
  {
    assert exists m :: IsFirst(s, m) by { var m := FirstExists(s); }
    assert forall a, b :: IsFirst(s, a) && IsFirst(s, b) ==> a == b by {
      forall a, b | IsFirst(s, a) && IsFirst(s, b) ensures a == b { StringLeTotal(a, b); }
    }
    var m :| m in s && IsFirst(s, m);
    m
  }

  /** A set of names in iteration order. */
  function InOrder(s: set<string>): (r: seq<string>)
    ensures forall x :: x in r <==> x in s
    ensures forall i, j :: 0 <= i < j < |r| ==> r[i] != r[j]
  {
    if s == {} then [] else [First(s)] + InOrder(s - {First(s)})
  }

  lemma FirstUnique(s: set<string>, m: string)
    requires IsFirst(s, m)
    ensures First(s) == m
  {
    StringLeTotal(First(s), m);
  }

  lemma SubsetSize<T>(a: set<T>, b: set<T>)
    requires a <= b
    ensures |a| <= |b|
  {
    if a != {} {
      var x :| x in a;
      SubsetSize(a - {x}, b - {x});
    }
  }
}

/** The order in which `sorted(directory.iterdir())` visits the entries of one
    directory on POSIX paths: paths with a common parent compare by name, and
    names compare code point by code point, a proper prefix coming first.
    Windows paths compare case-folded names instead; that order is not
    modelled. */
module NameOrder {

  /** `a` sorts strictly before `b`. */
  predicate Below(a: string, b: string)
    decreases |a|
  {
    if a == [] then b != []
    else if b == [] then false
    else a[0] < b[0] || (a[0] == b[0] && Below(a[1..], b[1..]))
  }

  lemma {:induction false} BelowIrreflexive(a: string)
    ensures !Below(a, a)
    decreases |a|
  {
    if a != [] {
      BelowIrreflexive(a[1..]);
    }
  }

  lemma {:induction false} BelowTransitive(a: string, b: string, c: string)
    requires Below(a, b) && Below(b, c)
    ensures Below(a, c)
    decreases |a|
  {
    if a != [] && a[0] == b[0] && b[0] == c[0] {
      BelowTransitive(a[1..], b[1..], c[1..]);
    }
  }

  lemma {:induction false} BelowTotal(a: string, b: string)
    requires a != b
    ensures Below(a, b) || Below(b, a)
    decreases |a|
  {
    if a != [] && b != [] && a[0] == b[0] {
      assert a == [a[0]] + a[1..] && b == [b[0]] + b[1..];
      BelowTotal(a[1..], b[1..]);
    }
  }

  lemma BelowAsymmetric(a: string, b: string)
    requires Below(a, b)
    ensures !Below(b, a)
  {
    if Below(b, a) {
      BelowTransitive(a, b, a);
      BelowIrreflexive(a);
    }
  }

  predicate StrictlySorted(s: seq<string>)
  {
    forall i, j :: 0 <= i < j < |s| ==> Below(s[i], s[j])
  }

  /** A strictly sorted sequence repeats no name, so it has as many
      elements as the set of its names. */
  lemma {:induction false} SortedCount(s: seq<string>)
    requires StrictlySorted(s)
    ensures |set x | x in s| == |s|
  {
    if s != [] {
      var tail := s[1..];
      assert StrictlySorted(tail) by {
        forall i, j | 0 <= i < j < |tail| ensures Below(tail[i], tail[j]) {
          assert tail[i] == s[i + 1] && tail[j] == s[j + 1];
        }
      }
      SortedCount(tail);
      if s[0] in tail {
        var k :| 0 <= k < |tail| && tail[k] == s[0];
        assert Below(s[0], s[k + 1]);
        BelowIrreflexive(s[0]);
      }
      assert (set x | x in s) == {s[0]} + (set x | x in tail) by {
        assert s == [s[0]] + tail;
      }
    }
  }

  /** Some element of a non-empty set of names; `LeastIsBelowOthers` shows it
      is the one that sorts first. */
  ghost function Least(s: set<string>): (m: string)
    requires s != {}
    ensures m in s
    decreases |s|
  {
    var x :| x in s;
    if s == {x} then x
    else
      var m := Least(s - {x});
      if Below(x, m) then x else m
  }

  lemma {:induction false} LeastIsBelowOthers(s: set<string>)
    requires s != {}
    ensures forall y :: y in s && y != Least(s) ==> Below(Least(s), y)
    decreases |s|
  {
    var x :| x in s && Least(s) == (if s == {x} then x else
      var m := Least(s - {x}); if Below(x, m) then x else m);
    if s != {x} {
      var rest := s - {x};
      var m := Least(rest);
      LeastIsBelowOthers(rest);
      forall y | y in s && y != Least(s)
        ensures Below(Least(s), y)
      {
        if Below(x, m) {
          if y != m {
            BelowTransitive(x, m, y);
          }
        } else {
          if y == x {
            BelowTotal(x, m);
          }
        }
      }
    }
  }

  /** A name below every other name of `s` is `Least(s)`. */
  lemma LeastIsUnique(s: set<string>, m: string)
    requires m in s
    requires forall y :: y in s && y != m ==> Below(m, y)
    ensures m == Least(s)
  {
    LeastIsBelowOthers(s);
    if m != Least(s) {
      BelowAsymmetric(m, Least(s));
    }
  }

  /** The names of `s` in sorted order: what `sorted()` makes of a listing. */
  ghost function SortedKeys(s: set<string>): (r: seq<string>)
    ensures StrictlySorted(r) && |r| == |s|
    ensures forall x :: x in r <==> x in s
    decreases |s|
  {
    if s == {} then []
    else
      var m := Least(s);
      LeastIsBelowOthers(s);
      var rest := SortedKeys(s - {m});
      SortedAfter(m, rest);
      [m] + rest
  }

  /** `sorted()` is determined by the names: any strictly sorted sequence of
      exactly the names of `s` is `SortedKeys(s)`. */
  lemma {:induction false} SortedKeysUnique(s: set<string>, r: seq<string>)
    requires StrictlySorted(r)
    requires forall x :: x in r <==> x in s
    ensures r == SortedKeys(s)
    decreases |r|
  {
    if r == [] {
      assert s == {};
    } else {
      var m := r[0];
      forall y | y in s && y != m ensures Below(m, y) {
        var k :| 0 <= k < |r| && r[k] == y;
      }
      LeastIsUnique(s, m);
      var tail := r[1..];
      assert StrictlySorted(tail) by {
        forall i, j | 0 <= i < j < |tail| ensures Below(tail[i], tail[j]) {
          assert tail[i] == r[i + 1] && tail[j] == r[j + 1];
        }
      }
      forall x ensures x in tail <==> x in s - {m} {
        if x in tail {
          var k :| 0 <= k < |tail| && tail[k] == x;
          assert Below(r[0], r[k + 1]);
          if x == m {
            BelowIrreflexive(m);
          }
        }
        if x in s - {m} {
          assert x in r;
          assert r == [r[0]] + tail;
        }
      }
      SortedKeysUnique(s - {m}, tail);
      SortedKeysFirst(s);
      assert r == [m] + tail;
    }
  }

  lemma SortedAfter(m: string, rest: seq<string>)
    requires StrictlySorted(rest)
    requires forall x :: x in rest ==> Below(m, x)
    ensures StrictlySorted([m] + rest)
  {
    var r := [m] + rest;
    forall i, j | 0 <= i < j < |r|
      ensures Below(r[i], r[j])
    {
      if i > 0 {
        assert r[i] == rest[i - 1] && r[j] == rest[j - 1];
      } else {
        assert r[j] in rest;
      }
    }
  }

  /** One round of the selection sort keeps the output a prefix of the
      sorted listing. */
  lemma SortStep(done: seq<string>, rest: set<string>, s: set<string>)
    requires rest != {}
    requires done + SortedKeys(rest) == SortedKeys(s)
    ensures (done + [Least(rest)]) + SortedKeys(rest - {Least(rest)}) == SortedKeys(s)
  {
    SortedKeysFirst(rest);
    AppendOne(done, Least(rest), SortedKeys(rest - {Least(rest)}));
  }

  lemma AppendOne(a: seq<string>, x: string, b: seq<string>)
    ensures (a + [x]) + b == a + ([x] + b)
  {
  }

  /** The sorted listing of a non-empty set starts with its least name. */
  lemma SortedKeysFirst(s: set<string>)
    requires s != {}
    ensures SortedKeys(s) == [Least(s)] + SortedKeys(s - {Least(s)})
  {
  }

  /** Finds the name of `s` that sorts first. */
  method MinName(s: set<string>) returns (m: string)
    requires s != {}
    ensures m == Least(s)
  {
    m :| m in s;
    var todo := s - {m};
    while todo != {}
      invariant todo <= s && m in s && m !in todo
      invariant forall y :: y in s && y !in todo && y != m ==> Below(m, y)
      decreases |todo|
    {
      var y :| y in todo;
      if Below(y, m) {
        forall z | z in s && z !in todo && z != m
          ensures Below(y, z)
        {
          BelowTransitive(y, m, z);
        }
        m := y;
      } else {
        BelowTotal(y, m);
      }
      todo := todo - {y};
    }
    LeastIsUnique(s, m);
  }

  /** The model of Python's `sorted()` over the names of one directory: a
      selection sort that takes the first remaining name each round. */
  method SortNames(s: set<string>) returns (r: seq<string>)
    ensures r == SortedKeys(s)
  {
    r := [];
    var rest := s;
    while rest != {}
      invariant r + SortedKeys(rest) == SortedKeys(s)
      decreases |rest|
    {
      var m := MinName(rest);
      SortStep(r, rest, s);
      r, rest := r + [m], rest - {m};
    }
  }
}

/** Ascending order on ids: Python's `sorted` on a list of ids, the ascending
    listing of a set of ids, and the fact that such a listing is unique; with the facts
    on lists, sets and maps that several modules share. */
module IdOrder {

  function Elems<T>(s: seq<T>): (r: set<T>) {
    set x | x in s
  }

  ghost predicate Distinct<T>(s: seq<T>) {
    forall i, j :: 0 <= i < j < |s| ==> s[i] != s[j]
  }

  ghost predicate Increasing(s: seq<nat>) {
    forall i, j :: 0 <= i < j < |s| ==> s[i] < s[j]
  }

  ghost predicate Nondecreasing(s: seq<nat>) {
    forall i, j :: 0 <= i < j < |s| ==> s[i] <= s[j]
  }

  function Insert(x: nat, s: seq<nat>): (r: seq<nat>) {
    if s == [] || x <= s[0] then [x] + s else [s[0]] + Insert(x, s[1..])
  }

  /** Python's `sorted` on a list of integers. */
  function Sort(s: seq<nat>): (r: seq<nat>)
  {
    if s == [] then [] else Insert(s[0], Sort(s[1..]))
  }

  /** How often x occurs. */
  ghost function Count(s: seq<nat>, x: nat): (n: nat) {
    if s == [] then 0 else (if s[0] == x then 1 else 0) + Count(s[1..], x)
  }

  lemma {:induction false} CountConcat(a: seq<nat>, b: seq<nat>, x: nat)
    ensures Count(a + b, x) == Count(a, x) + Count(b, x)
  {
    if a == [] {
      assert a + b == b;
    } else {
      CountConcat(a[1..], b, x);
      assert (a + b)[1..] == a[1..] + b;
    }
  }

  lemma {:induction false} CountMember(s: seq<nat>, x: nat)
    ensures x in s <==> Count(s, x) > 0
  {
    if s != [] {
      CountMember(s[1..], x);
    }
  }

  lemma {:induction false} InsertCount(x: nat, s: seq<nat>, y: nat)
    ensures Count(Insert(x, s), y) == Count(s, y) + if x == y then 1 else 0
  {
    if s != [] && x > s[0] {
      InsertCount(x, s[1..], y);
    }
  }

  lemma {:induction false} SortCount(s: seq<nat>, y: nat)
    ensures Count(Sort(s), y) == Count(s, y)
  {
    if s != [] {
      SortCount(s[1..], y);
      InsertCount(s[0], Sort(s[1..]), y);
    }
  }

  lemma {:induction false} InsertMembers(x: nat, s: seq<nat>, y: nat)
    ensures y in Insert(x, s) <==> y == x || y in s
  {
    if s != [] && x > s[0] {
      InsertMembers(x, s[1..], y);
    }
  }

  lemma PrependSmallest(m: nat, rest: seq<nat>)
    requires Nondecreasing(rest) && forall x :: x in rest ==> m <= x
    ensures Nondecreasing([m] + rest)
  {
    assert forall i :: 0 <= i < |rest| ==> rest[i] in rest;
  }

  lemma PrependSmaller(m: nat, rest: seq<nat>)
    requires Increasing(rest) && forall x :: x in rest ==> m < x
    ensures Increasing([m] + rest)
  {
    assert forall i :: 0 <= i < |rest| ==> rest[i] in rest;
  }

  lemma {:induction false} InsertOrdered(x: nat, s: seq<nat>)
    requires Nondecreasing(s)
    ensures Nondecreasing(Insert(x, s))
  {
    if s != [] && x > s[0] {
      InsertOrdered(x, s[1..]);
      forall y | y in Insert(x, s[1..])
        ensures s[0] <= y
      {
        InsertMembers(x, s[1..], y);
      }
      PrependSmallest(s[0], Insert(x, s[1..]));
    }
  }

  lemma {:induction false} InsertIncreasing(x: nat, s: seq<nat>)
    requires Increasing(s) && x !in s
    ensures Increasing(Insert(x, s))
  {
    if s != [] && x > s[0] {
      InsertIncreasing(x, s[1..]);
      forall y | y in Insert(x, s[1..])
        ensures s[0] < y
      {
        InsertMembers(x, s[1..], y);
      }
      PrependSmaller(s[0], Insert(x, s[1..]));
    }
  }

  lemma {:induction false} SortMembers(s: seq<nat>, y: nat)
    ensures y in Sort(s) <==> y in s
  {
    if s != [] {
      SortMembers(s[1..], y);
      InsertMembers(s[0], Sort(s[1..]), y);
    }
  }

  lemma {:induction false} SortOrdered(s: seq<nat>)
    ensures Nondecreasing(Sort(s))
    ensures Distinct(s) ==> Increasing(Sort(s))
  {
    if s != [] {
      SortOrdered(s[1..]);
      InsertOrdered(s[0], Sort(s[1..]));
      SortMembers(s[1..], s[0]);
      if Distinct(s) {
        InsertIncreasing(s[0], Sort(s[1..]));
      }
    }
  }

  lemma SortCorrect(s: seq<nat>)
    ensures Nondecreasing(Sort(s))
    ensures forall y :: y in Sort(s) <==> y in s
    ensures Distinct(s) ==> Increasing(Sort(s))
  {
    SortOrdered(s);
    forall y
      ensures y in Sort(s) <==> y in s
    {
      SortMembers(s, y);
    }
  }

  /** Some member of a nonempty set. */
  ghost function Pick<T>(s: set<T>): (x: T)
    requires s != {}
    ensures x in s
  {
    var x :| x in s; x
  }

  lemma {:induction false} HasMinimum(s: set<nat>) returns (m: nat)
    requires s != {}
    ensures m in s && forall x :: x in s ==> m <= x
  {
    m := Pick(s);
    var rest := s - {m};
    if rest != {} {
      var k := HasMinimum(rest);
      if k < m {
        m := k;
      }
    }
    forall x | x in s
      ensures m <= x
    {
      assert x in rest || x !in rest;
    }
  }

  ghost function Minimum(s: set<nat>): (m: nat)
    requires s != {}
    ensures m in s && forall x :: x in s ==> m <= x
  {
    assert exists m :: m in s && forall x :: x in s ==> m <= x by {
      var m := HasMinimum(s);
    }
    var m :| m in s && forall x :: x in s ==> m <= x;
    m
  }

  /** The members of a set in ascending order. */
  ghost function Ascending(s: set<nat>): (r: seq<nat>)
    ensures Increasing(r) && Elems(r) == s
  {
    if s == {} then []
    else
      var m := Minimum(s);
      var rest := Ascending(s - {m});
      PrependSmaller(m, rest);
      assert Elems([m] + rest) == {m} + Elems(rest);
      [m] + rest
  }

  lemma TailMembers(s: seq<nat>, x: nat)
    requires Increasing(s) && s != []
    ensures x in s[1..] <==> x in s && x != s[0]
    ensures x in s ==> s[0] <= x
  {
  }

  /** An ascending listing is determined by its members. */
  lemma {:induction false} IncreasingUnique(a: seq<nat>, b: seq<nat>)
    requires Increasing(a) && Increasing(b)
    requires forall x :: x in a <==> x in b
    ensures a == b
  {
    NoMembers(a);
    NoMembers(b);
    if a != [] {
      assert a[0] in b && b[0] in a;
      TailMembers(a, b[0]);
      TailMembers(b, a[0]);
      forall x
        ensures x in a[1..] <==> x in b[1..]
      {
        TailMembers(a, x);
        TailMembers(b, x);
      }
      IncreasingUnique(a[1..], b[1..]);
      assert a == [a[0]] + a[1..] && b == [b[0]] + b[1..];
    }
  }

  /** A list has at most as many members as entries, and as many only without repeats. */
  lemma {:induction false} ElemsSize<T>(s: seq<T>)
    ensures |Elems(s)| <= |s|
    ensures |Elems(s)| == |s| <==> Distinct(s)
  {
    if s == [] {
    } else {
      ElemsSize(s[1..]);
      if s[0] in s[1..] {
        assert Elems(s) == Elems(s[1..]);
      } else {
        assert Elems(s) == {s[0]} + Elems(s[1..]);
      }
    }
  }

  lemma SubsetSize<T>(a: set<T>, b: set<T>)
    requires a <= b
    ensures |a| <= |b|
    ensures |a| == |b| ==> a == b
  {
    assert b == a + (b - a);
  }

  lemma NothingLeft<T>(all: set<T>, taken: set<T>)
    requires taken <= all
    ensures all - taken == {} <==> taken == all
  {
    if all - taken == {} {
      forall x | x in all
        ensures x in taken
      {
        assert x in taken || x in all - taken;
      }
    }
  }

  lemma Assoc<T>(a: seq<T>, b: seq<T>, c: seq<T>)
    ensures (a + b) + c == a + (b + c)
  {
  }

  lemma ConcatTail<T>(a: seq<T>, b: seq<T>)
    requires a != []
    ensures (a + b)[0] == a[0] && (a + b)[1..] == a[1..] + b
  {
  }

  lemma TakeOut<T>(s: seq<T>, i: nat)
    requires i < |s|
    ensures multiset(s) == multiset(s[..i] + s[i + 1..]) + multiset{s[i]}
  {
    assert s == s[..i] + [s[i]] + s[i + 1..];
  }

  lemma TakeOutDistinct<T>(s: seq<T>, i: nat)
    requires i < |s| && Distinct(s)
    ensures Distinct(s[..i] + s[i + 1..])
    ensures forall x :: x in s[..i] + s[i + 1..] <==> x in s && x != s[i]
  {
    var rest := s[..i] + s[i + 1..];
    forall x | x in s && x != s[i]
      ensures x in rest
    {
      var k :| 0 <= k < |s| && s[k] == x;
      assert rest[if k < i then k else k - 1] == x;
    }
  }

  lemma NoMembers<T>(s: seq<T>)
    ensures s == [] || exists x :: x in s
  {
    if |s| > 0 {
      var x := s[0];
      assert x in s;
    }
  }

  /** Two lists without repeats and with the same members are permutations of each other. */
  lemma {:induction false} SameMembersPermute<T>(a: seq<T>, b: seq<T>)
    requires Distinct(a) && Distinct(b)
    requires forall x :: x in a <==> x in b
    ensures multiset(a) == multiset(b)
    decreases |a|
  {
    if a == [] {
      NoMembers(b);
    } else {
      assert a[0] in b;
      var i :| 0 <= i < |b| && b[i] == a[0];
      TakeOutDistinct(a, 0);
      TakeOutDistinct(b, i);
      var ra, rb := a[..0] + a[1..], b[..i] + b[i + 1..];
      forall x
        ensures x in ra <==> x in rb
      {
        assert x in a <==> x in b;
      }
      SameMembersPermute(ra, rb);
      TakeOut(a, 0);
      TakeOut(b, i);
    }
  }

  /** Maps that agree both ways are equal. */
  lemma SameEntries<K, V>(a: map<K, V>, b: map<K, V>)
    requires forall k :: k in a ==> k in b && b[k] == a[k]
    requires forall k :: k in b ==> k in a && a[k] == b[k]
    ensures a == b
  {
    assert a.Keys == b.Keys;
  }

  /** Pigeonhole: more entries than available values forces a repeat. */
  lemma Pigeonhole<T>(s: seq<T>, values: set<T>)
    requires Elems(s) <= values && |s| > |values|
    ensures exists i, j :: 0 <= i < j < |s| && s[i] == s[j]
  {
    if Distinct(s) {
      ElemsSize(s);
      SubsetSize(Elems(s), values);
    }
  }
}

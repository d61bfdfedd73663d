/** Keys made by joining fields with a separator, and when they tell the fields apart. */
module JoinedKeys {

  function Join(parts: seq<string>, separator: char): (r: string)
    requires parts != []
  {
    if |parts| == 1 then parts[0] else parts[0] + [separator] + Join(parts[1..], separator)
  }

  /** No field but possibly the last contains the separator. */
  ghost predicate Separable(parts: seq<string>, separator: char) {
    forall i :: 0 <= i < |parts| - 1 ==> separator !in parts[i]
  }

  lemma NotLonger(a: string, ra: string, b: string, rb: string, separator: char)
    requires separator !in b && a + ([separator] + ra) == b + ([separator] + rb)
    ensures |b| <= |a|
  {
    if |a| < |b| {
      EntryOf(b, [separator] + rb, |a|);
      EntryAfter(a, [separator] + ra);
    }
  }

  lemma EntryOf(b: string, rest: string, i: nat)
    requires i < |b|
    ensures (b + rest)[i] in b
  {
    assert (b + rest)[i] == b[i];
  }

  lemma EntryAfter(a: string, rest: string)
    requires rest != []
    ensures (a + rest)[|a|] == rest[0]
  {
  }

  lemma FirstPartsEqual(a: string, ra: string, b: string, rb: string, separator: char)
    requires separator !in a && separator !in b && a + [separator] + ra == b + [separator] + rb
    ensures a == b && ra == rb
  {
    assert a + [separator] + ra == a + ([separator] + ra) && b + [separator] + rb == b + ([separator] + rb);
    NotLonger(a, ra, b, rb, separator);
    NotLonger(b, rb, a, ra, separator);
    var s := a + [separator] + ra;
    assert a == s[..|a|] && b == s[..|b|];
    assert ra == s[|a| + 1..] && rb == s[|b| + 1..];
  }

  /** Equal joined keys come from equal fields. */
  lemma {:induction false} JoinInjective(a: seq<string>, b: seq<string>, separator: char)
    requires |a| == |b| && a != [] && Separable(a, separator) && Separable(b, separator)
    requires Join(a, separator) == Join(b, separator)
    ensures a == b
  {
    if |a| == 1 {
      assert a == [a[0]] && b == [b[0]];
    } else {
      FirstPartsEqual(a[0], Join(a[1..], separator), b[0], Join(b[1..], separator), separator);
      TailSeparable(a, separator);
      TailSeparable(b, separator);
      JoinInjective(a[1..], b[1..], separator);
      assert a == [a[0]] + a[1..] && b == [b[0]] + b[1..];
    }
  }

  lemma TailSeparable(a: seq<string>, separator: char)
    requires |a| > 1 && Separable(a, separator)
    ensures separator !in a[0] && Separable(a[1..], separator)
  {
    var t := a[1..];
    forall i | 0 <= i < |t| - 1
      ensures separator !in t[i]
    {
      assert t[i] == a[i + 1];
    }
  }

  /** A separator inside a field shifts the boundary: two different pairs, one key. */
  lemma SeparatorInsideFieldCollides(x: string, y: string, z: string, separator: char)
    requires y != z || x != []
    ensures Join([x + [separator] + y, z], separator) == Join([x, y + [separator] + z], separator)
    ensures [x + [separator] + y, z] != [x, y + [separator] + z]
  {
    assert [x + [separator] + y, z][1..] == [z];
    assert [x, y + [separator] + z][1..] == [y + [separator] + z];
    assert (x + [separator] + y) + [separator] + z == x + [separator] + (y + [separator] + z);
    assert |x + [separator] + y| > |x|;
  }
}

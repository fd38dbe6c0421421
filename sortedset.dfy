/** A set of strings kept as a strictly ascending sequence: the Python `set()` that the
    package passes grow with `update`, together with the `sorted()` they print it with. */
module SortedSet {
  import opened PyStr

  /** Strictly ascending in Python's string order, hence also free of duplicates. */
  ghost predicate StrictlyAscending(xs: seq<string>) {
    forall i, j :: 0 <= i < j < |xs| ==> Less(xs[i], xs[j])
  }

  function Elems(xs: seq<string>): set<string> {
    set x | x in xs
  }

  /** An element below everything in a strictly ascending sequence can go in front. */
  lemma ConsAscending(y: string, rest: seq<string>)
    requires StrictlyAscending(rest)
    requires forall z :: z in rest ==> Less(y, z)
    ensures StrictlyAscending([y] + rest)
  {
    forall i, j | 0 <= i < j < |[y] + rest| ensures Less(([y] + rest)[i], ([y] + rest)[j]) {
      assert ([y] + rest)[j] == rest[j - 1];
      if i > 0 { assert ([y] + rest)[i] == rest[i - 1]; }
    }
  }

  /** Everything in the tail of a strictly ascending sequence, and any `t` above its head,
      is above its head. */
  lemma AboveHead(xs: seq<string>, t: string, rest: seq<string>)
    requires StrictlyAscending(xs) && xs != [] && Less(xs[0], t)
    requires Elems(rest) == Elems(xs[1..]) + {t}
    ensures forall y :: y in rest ==> Less(xs[0], y)
  {
    forall y | y in rest ensures Less(xs[0], y) {
      assert y in Elems(rest);
      if y != t {
        var k :| 0 <= k < |xs[1..]| && xs[1..][k] == y;
        assert xs[k + 1] == y;
      }
    }
  }

  lemma ElemsCons(y: string, rest: seq<string>)
    ensures Elems([y] + rest) == {y} + Elems(rest)
  {
  }

  /** `set.add(t)` on the sorted representation. */
  function Insert(xs: seq<string>, t: string): (r: seq<string>)
    requires StrictlyAscending(xs)
    ensures StrictlyAscending(r)
    ensures Elems(r) == Elems(xs) + {t}
  {
    if xs == [] then [t]
    else if t == xs[0] then xs
    else if Less(t, xs[0]) then
      assert forall j :: 0 <= j < |xs| ==> Less(t, xs[j]) by {
        forall j | 0 < j < |xs| ensures Less(t, xs[j]) { LessTransitive(t, xs[0], xs[j]); }
      }
      ConsAscending(t, xs);
      [t] + xs
    else
      LessTotal(t, xs[0]);
      assert xs == [xs[0]] + xs[1..];
      var rest := Insert(xs[1..], t);
      AboveHead(xs, t, rest);
      ConsAscending(xs[0], rest);
      ElemsCons(xs[0], xs[1..]);
      ElemsCons(xs[0], rest);
      [xs[0]] + rest
  }

  /** `set.update(ts)`: adds every token of `ts`. */
  function InsertAll(xs: seq<string>, ts: seq<string>): (r: seq<string>)
    requires StrictlyAscending(xs)
    ensures StrictlyAscending(r)
    ensures Elems(r) == Elems(xs) + Elems(ts)
    decreases |ts|
  {
    if ts == [] then xs
    else
      assert Elems(ts) == {ts[0]} + Elems(ts[1..]);
      InsertAll(Insert(xs, ts[0]), ts[1..])
  }

  lemma ElemsEmpty(b: seq<string>)
    ensures Elems(b) == {} ==> b == []
  {
    if b != [] { assert b[0] in Elems(b); }
  }

  /** The first element of a strictly ascending sequence is below every other element. */
  lemma HeadLeast(a: seq<string>, x: string)
    requires StrictlyAscending(a) && a != [] && x in Elems(a) && x != a[0]
    ensures Less(a[0], x)
  {
    var i :| 0 <= i < |a| && a[i] == x;
  }

  /** Dropping the first element of a strictly ascending sequence removes exactly it. */
  lemma AscendingTail(a: seq<string>)
    requires StrictlyAscending(a) && a != []
    ensures StrictlyAscending(a[1..])
    ensures Elems(a[1..]) == Elems(a) - {a[0]}
  {
    assert a == [a[0]] + a[1..];
    forall x | x in Elems(a[1..]) ensures x != a[0] {
      var i :| 0 <= i < |a[1..]| && a[1..][i] == x;
      assert Less(a[0], a[i + 1]);
      LessIrreflexive(x);
    }
  }

  /** A strictly ascending sequence is determined by its elements: whatever order the
      elements arrived in, `sorted(set)` is the same text. */
  lemma {:induction false} AscendingUnique(a: seq<string>, b: seq<string>)
    requires StrictlyAscending(a) && StrictlyAscending(b)
    requires Elems(a) == Elems(b)
    ensures a == b
    decreases |a|
  {
    if a == [] {
      ElemsEmpty(b);
    } else {
      assert a[0] in Elems(a);
      assert b != [];
      assert b[0] in Elems(b);
      if a[0] != b[0] {
        HeadLeast(a, b[0]);
        HeadLeast(b, a[0]);
        LessAsymmetric(a[0], b[0]);
      }
      AscendingTail(a);
      AscendingTail(b);
      AscendingUnique(a[1..], b[1..]);
      assert a == [a[0]] + a[1..] && b == [b[0]] + b[1..];
    }
  }
}

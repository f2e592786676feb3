/** Python list operations the relay commands apply to address lists:
    `list.remove(x)` (drop the first occurrence) and the repetition-free
    property the stored lists are meant to keep. */
module Lists {

  /** No element occurs twice. */
  predicate NoDup(s: seq<string>)
  {
    forall i, j :: 0 <= i < j < |s| ==> s[i] != s[j]
  }

  /** Where `x` first occurs in `s`: Python's `s.index(x)`. */
  function FirstIndex(s: seq<string>, x: string): (i: nat)
    requires x in s
    ensures i < |s| && s[i] == x && x !in s[..i]
    decreases |s|
  {
    if s[0] == x then 0
    else
      var j := FirstIndex(s[1..], x);
      assert s[..j + 1] == [s[0]] + s[1..][..j];
      j + 1
  }

  /** Python's `s.remove(x)` when `x in s`; `s` unchanged otherwise. */
  function RemoveFirst(s: seq<string>, x: string): (r: seq<string>)
    ensures x in s ==> |r| == |s| - 1
    ensures x !in s ==> r == s
    ensures multiset(r) == multiset(s) - multiset{x}
    decreases |s|
  {
    if s == [] then []
    else
      assert s == [s[0]] + s[1..];
      if s[0] == x then s[1..] else [s[0]] + RemoveFirst(s[1..], x)
  }

  /** `remove` takes out the first occurrence and keeps the elements
      before and after it in order. */
  lemma RemoveFirstAt(s: seq<string>, x: string)
    requires x in s
    ensures RemoveFirst(s, x) == s[..FirstIndex(s, x)] + s[FirstIndex(s, x) + 1..]
  {
    var i := FirstIndex(s, x);
    var a, b := s[..i], s[i + 1..];
    assert s == a + ([x] + b);
    RemoveFirstFromSuffix(a, [x] + b, x);
    assert ([x] + b)[1..] == b;
  }

  /** `s.remove(x)` for each `x` of `xs`, left to right. */
  function RemoveAll(s: seq<string>, xs: seq<string>): (r: seq<string>)
    ensures |r| <= |s|
    decreases |xs|
  {
    if xs == [] then s else RemoveAll(RemoveFirst(s, xs[0]), xs[1..])
  }

  /** The elements of `s` not in `xs`, in their order in `s`. */
  function FilterOut(s: seq<string>, xs: set<string>): (r: seq<string>)
    ensures forall y :: y in r <==> y in s && y !in xs
    decreases |s|
  {
    if s == [] then []
    else if s[0] in xs then FilterOut(s[1..], xs)
    else [s[0]] + FilterOut(s[1..], xs)
  }

  lemma {:induction false} RemoveFirstKeepsOthers(s: seq<string>, x: string, y: string)
    requires x != y
    ensures y in RemoveFirst(s, x) <==> y in s
    decreases |s|
  {
    if s != [] && s[0] != x {
      RemoveFirstKeepsOthers(s[1..], x, y);
    }
  }

  /** Removing an element that is not among the first part only touches the
      second part. */
  lemma {:induction false} RemoveFirstFromSuffix(a: seq<string>, b: seq<string>, x: string)
    requires x !in a
    ensures RemoveFirst(a + b, x) == a + RemoveFirst(b, x)
    decreases |a|
  {
    if a != [] {
      var t := a[1..];
      assert a == [a[0]] + t;
      assert a + b == [a[0]] + (t + b);
      RemoveFirstCons(a[0], t + b, x);
      RemoveFirstFromSuffix(t, b, x);
    } else {
      assert a + b == b;
    }
  }

  /** `remove` passes over a head that is not the element. */
  lemma RemoveFirstCons(h: string, t: seq<string>, x: string)
    requires h != x
    ensures RemoveFirst([h] + t, x) == [h] + RemoveFirst(t, x)
  {
    assert ([h] + t)[0] == h;
    assert ([h] + t)[1..] == t;
  }

  /** On a repetition-free list, `remove` drops every occurrence. */
  lemma {:induction false} RemoveFirstNoDup(s: seq<string>, x: string)
    requires NoDup(s)
    ensures RemoveFirst(s, x) == FilterOut(s, {x})
    decreases |s|
  {
    if s != [] {
      assert NoDup(s[1..]);
      if s[0] == x {
        assert x !in s[1..];
        FilterOutNothing(s[1..], {x});
      } else {
        RemoveFirstNoDup(s[1..], x);
      }
    }
  }

  lemma {:induction false} FilterOutNothing(s: seq<string>, xs: set<string>)
    requires forall y :: y in s ==> y !in xs
    ensures FilterOut(s, xs) == s
    decreases |s|
  {
    if s != [] {
      FilterOutNothing(s[1..], xs);
      assert [s[0]] + s[1..] == s;
    }
  }

  lemma {:induction false} FilterOutTwice(s: seq<string>, xs: set<string>, ys: set<string>)
    ensures FilterOut(FilterOut(s, xs), ys) == FilterOut(s, xs + ys)
    decreases |s|
  {
    if s != [] {
      FilterOutTwice(s[1..], xs, ys);
    }
  }

  lemma {:induction false} FilterOutNoDup(s: seq<string>, xs: set<string>)
    requires NoDup(s)
    ensures NoDup(FilterOut(s, xs))
    decreases |s|
  {
    if s != [] {
      assert NoDup(s[1..]);
      FilterOutNoDup(s[1..], xs);
      assert s[0] !in s[1..];
    }
  }

  /** On a repetition-free list, removing each element of `xs` in turn
      leaves exactly the elements not in `xs`, in their original order. */
  lemma {:induction false} RemoveAllNoDup(s: seq<string>, xs: seq<string>)
    requires NoDup(s)
    ensures RemoveAll(s, xs) == FilterOut(s, set x | x in xs)
    decreases |xs|
  {
    if xs == [] {
      assert (set x | x in xs) == {};
      FilterOutNothing(s, {});
    } else {
      var s1 := RemoveFirst(s, xs[0]);
      var rest := set x | x in xs[1..];
      RemoveFirstNoDup(s, xs[0]);
      FilterOutNoDup(s, {xs[0]});
      RemoveAllNoDup(s1, xs[1..]);
      assert RemoveAll(s, xs) == FilterOut(s1, rest);
      FilterOutTwice(s, {xs[0]}, rest);
      ElementsOfCons(xs);
    }
  }

  lemma ElementsOfCons(xs: seq<string>)
    requires xs != []
    ensures {xs[0]} + (set x | x in xs[1..]) == set x | x in xs
  {
    assert xs == [xs[0]] + xs[1..];
  }

  /** Whatever duplicates `s` holds, removing each element of `xs` once
      takes exactly `xs` out of it, counted with multiplicity, provided
      every removal found its element. */
  lemma {:induction false} RemoveAllMultiset(s: seq<string>, xs: seq<string>)
    requires multiset(xs) <= multiset(s)
    ensures multiset(RemoveAll(s, xs)) + multiset(xs) == multiset(s)
    decreases |xs|
  {
    if xs != [] {
      assert xs == [xs[0]] + xs[1..];
      assert xs[0] in multiset(s);
      var s' := RemoveFirst(s, xs[0]);
      assert multiset(xs[1..]) <= multiset(s');
      RemoveAllMultiset(s', xs[1..]);
    }
  }

  /** Removing each stored element once, in any order, empties the list. */
  lemma RemoveAllEverything(s: seq<string>, xs: seq<string>)
    requires multiset(xs) == multiset(s)
    ensures RemoveAll(s, xs) == []
  {
    RemoveAllMultiset(s, xs);
    assert multiset(RemoveAll(s, xs)) == multiset{};
  }

  /** Appending `xs` and then removing each of them again restores the list,
      when none of them was there before. */
  lemma {:induction false} RemoveAllAppended(s: seq<string>, xs: seq<string>)
    requires forall x :: x in xs ==> x !in s
    ensures RemoveAll(s + xs, xs) == s
    decreases |xs|
  {
    if xs == [] {
      assert s + xs == s;
    } else {
      RemoveFirstFromSuffix(s, xs, xs[0]);
      assert RemoveFirst(xs, xs[0]) == xs[1..];
      RemoveAllAppended(s, xs[1..]);
    }
  }

  /** Removing one more element at the end of the request is one more
      `remove` on the result so far. */
  lemma {:induction false} RemoveAllSnoc(s: seq<string>, xs: seq<string>, x: string)
    ensures RemoveAll(s, xs + [x]) == RemoveFirst(RemoveAll(s, xs), x)
    decreases |xs|
  {
    if xs == [] {
      assert xs + [x] == [x];
    } else {
      assert (xs + [x])[1..] == xs[1..] + [x];
      RemoveAllSnoc(RemoveFirst(s, xs[0]), xs[1..], x);
    }
  }

  /** Removing each element of a list from the list itself empties it. */
  lemma {:induction false} RemoveAllSelf(s: seq<string>)
    ensures RemoveAll(s, s) == []
    decreases |s|
  {
    if s != [] {
      assert RemoveFirst(s, s[0]) == s[1..];
      RemoveAllSelf(s[1..]);
    }
  }

  /** Removals of other elements do not affect whether `y` is present. */
  lemma {:induction false} RemoveAllKeepsOthers(s: seq<string>, xs: seq<string>, y: string)
    requires y !in xs
    ensures y in RemoveAll(s, xs) <==> y in s
    decreases |xs|
  {
    if xs != [] {
      RemoveFirstKeepsOthers(s, xs[0], y);
      RemoveAllKeepsOthers(RemoveFirst(s, xs[0]), xs[1..], y);
    }
  }
}

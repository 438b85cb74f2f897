/**
 Trigram sets of byte strings and their Jaccard similarity.
 Scores are reals; the counts they are built from are exact.
 */
module Trigrams {

  type byte = x: int | 0 <= x < 256

  /** Three bytes packed into one number. */
  function Packed(s: seq<byte>, i: nat): (p: int)
    requires i + 2 < |s|
    ensures 0 <= p < 0x100_0000
  {
    s[i] as int * 0x1_0000 + s[i + 1] as int * 0x100 + s[i + 2] as int
  }

  function Windows(s: seq<byte>): set<int> { set i | 0 <= i < |s| - 2 :: Packed(s, i) }

  ghost predicate Increasing(t: seq<int>) { forall i, j :: 0 <= i < j < |t| ==> t[i] < t[j] }

  ghost predicate Sorted(t: seq<int>) { forall i, j :: 0 <= i < j < |t| ==> t[i] <= t[j] }

  function Elements(t: seq<int>): set<int> { set x | x in t }

  /** Packing loses nothing: equal numbers come from equal windows. */
  lemma PackedIsInjective(s: seq<byte>, i: nat, t: seq<byte>, j: nat)
    requires i + 2 < |s| && j + 2 < |t|
    ensures Packed(s, i) == Packed(t, j) <==> s[i..i + 3] == t[j..j + 3]
  {
    assert s[i..i + 3] == [s[i], s[i + 1], s[i + 2]];
    assert t[j..j + 3] == [t[j], t[j + 1], t[j + 2]];
  }

  lemma {:induction false} IncreasingSize(t: seq<int>)
    requires Increasing(t)
    ensures |Elements(t)| == |t|
  {
    if t == [] {
    } else {
      var most, last := t[..|t| - 1], t[|t| - 1];
      IncreasingSize(most);
      assert t == most + [last];
      assert Elements(t) == Elements(most) + {last};
    }
  }

  /** An increasing sequence is determined by its elements. */
  lemma {:induction false} IncreasingIsUnique(a: seq<int>, b: seq<int>)
    requires Increasing(a) && Increasing(b) && Elements(a) == Elements(b)
    ensures a == b
    decreases |a|
  {
    hide Increasing, Elements;
    IncreasingSize(a);
    IncreasingSize(b);
    if a == [] {
    } else {
      var n := |a| - 1;
      assert a[..n + 1] == a && b[..n + 1] == b;
      Upto(a, n);
      Upto(b, n);
      LastIsGreatest(a, b[n]);
      LastIsGreatest(b, a[n]);
      IncreasingPrefix(a, n);
      IncreasingPrefix(b, n);
      assert Elements(a[..n]) == Elements(a) - {a[n]} && Elements(b[..n]) == Elements(b) - {b[n]};
      IncreasingIsUnique(a[..n], b[..n]);
    }
  }

  lemma LastIsGreatest(t: seq<int>, x: int)
    requires Increasing(t) && x in Elements(t)
    ensures x <= t[|t| - 1]
  {
  }

  lemma IncreasingPrefix(t: seq<int>, n: nat)
    requires Increasing(t) && n <= |t|
    ensures Increasing(t[..n])
  {
  }

  /** One more element. */
  lemma Upto(t: seq<int>, i: nat)
    requires i < |t|
    ensures Elements(t[..i + 1]) == Elements(t[..i]) + {t[i]}
    ensures Increasing(t) ==> t[i] !in Elements(t[..i])
  {
    assert t[..i + 1] == t[..i] + [t[i]];
  }

  ghost predicate Occurs(s: seq<byte>, i: nat, triple: seq<byte>) {
    i + |triple| <= |s| && s[i..i + |triple|] == triple
  }

  /** The windows are exactly the triples of adjacent bytes, high byte first. */
  lemma WindowsAreTriples(s: seq<byte>, a: byte, b: byte, c: byte)
    ensures 65536 * a + 256 * b + c in Windows(s) <==> exists i: nat :: Occurs(s, i, [a, b, c])
  {
    var x := 65536 * a + 256 * b + c;
    if i: nat :| Occurs(s, i, [a, b, c]) {
      assert s[i..i + 3] == [a, b, c] && s[i..i + 3] == [s[i], s[i + 1], s[i + 2]];
      assert Packed(s, i) == x;
    }
    if x in Windows(s) {
      var i :| 0 <= i < |s| - 2 && Packed(s, i) == x;
      assert s[i] == a && s[i + 1] == b && s[i + 2] == c;
      assert Occurs(s, i, [a, b, c]);
    }
  }

  // ----- the library sort

  function Insert(x: int, t: seq<int>): seq<int> {
    if t == [] || x <= t[0] then [x] + t else [t[0]] + Insert(x, t[1..])
  }

  function Sort(t: seq<int>): seq<int> {
    if t == [] then [] else Insert(t[0], Sort(t[1..]))
  }

  lemma {:induction false} InsertElements(x: int, t: seq<int>)
    ensures multiset(Insert(x, t)) == multiset(t) + multiset{x}
  {
    if t == [] || x <= t[0] {
    } else {
      InsertElements(x, t[1..]);
      assert t == [t[0]] + t[1..];
    }
  }

  lemma {:induction false} InsertSorted(x: int, t: seq<int>)
    requires Sorted(t)
    ensures Sorted(Insert(x, t))
  {
    if t == [] || x <= t[0] {
    } else {
      var rest := Insert(x, t[1..]);
      InsertSorted(x, t[1..]);
      InsertElements(x, t[1..]);
      hide Insert;
      forall k | 0 <= k < |rest| ensures t[0] <= rest[k] {
        assert rest[k] in multiset(rest);
        assert rest[k] == x || rest[k] in t[1..];
      }
    }
  }

  lemma {:induction false} SortSpec(t: seq<int>)
    ensures Sorted(Sort(t)) && multiset(Sort(t)) == multiset(t)
  {
    if t == [] {
    } else {
      SortSpec(t[1..]);
      InsertSorted(t[0], Sort(t[1..]));
      InsertElements(t[0], Sort(t[1..]));
      hide Insert, Sorted;
      assert t == [t[0]] + t[1..];
    }
  }

  lemma SortElements(t: seq<int>)
    ensures |Sort(t)| == |t| && Elements(Sort(t)) == Elements(t)
  {
    hide Sort;
    SortSpec(t);
    assert |multiset(Sort(t))| == |multiset(t)|;
    assert forall x :: x in Sort(t) <==> x in multiset(Sort(t));
    assert forall x :: x in t <==> x in multiset(t);
  }

  method SortInPlace(a: array<int>)
    modifies a
    ensures a[..] == Sort(old(a[..]))
  {
    var sorted := Sort(a[..]);
    SortElements(a[..]);
    forall i | 0 <= i < a.Length {
      a[i] := sorted[i];
    }
  }

  // ----- trigrams

  /** The windows of a string, each once, in increasing order. */
  method BuildTrigrams(s: seq<byte>) returns (trigrams: seq<int>)
    ensures Increasing(trigrams) && Elements(trigrams) == Windows(s)
  {
    if |s| < 3 {
      return [];
    }
    var a := new int[|s| - 2];
    for i := 0 to |s| - 2
      invariant forall k :: 0 <= k < i ==> a[k] == Packed(s, k)
    {
      a[i] := Packed(s, i);
    }
    PackedWindows(s, a[..]);
    SortSpec(a[..]);
    SortElements(a[..]);
    SortInPlace(a);
    var n := DropRepeats(a);
    trigrams := a[..n];
  }

  /** Repeated elements of a sorted array are dropped in place, over the very array that is being read. */
  method DropRepeats(a: array<int>) returns (n: nat)
    requires a.Length > 0 && Sorted(a[..])
    modifies a
    ensures n <= a.Length && Increasing(a[..n]) && Elements(a[..n]) == Elements(old(a[..]))
  {
    hide Elements, Increasing;
    ghost var sorted := a[..];
    n := 1;
    assert Increasing(a[..1]) by { SingleIncreases(a[0]); assert a[..1] == [a[0]]; }
    for i := 1 to a.Length
      invariant 1 <= n <= i
      invariant forall k :: i - 1 <= k < a.Length ==> a[k] == sorted[k]
      invariant a[n - 1] == sorted[i - 1]
      invariant Increasing(a[..n])
      invariant Elements(a[..n]) == Elements(sorted[..i])
    {
      ghost var kept := a[..n];
      Upto(sorted, i);
      Push(kept, sorted[i]);
      if a[i] != a[i - 1] {
        a[n] := a[i];
        assert a[..n + 1] == kept + [sorted[i]];
        n := n + 1;
      }
    }
    assert sorted[..a.Length] == sorted;
  }

  lemma SingleIncreases(x: int)
    ensures Increasing([x])
  {
  }

  lemma Push(t: seq<int>, x: int)
    requires t != []
    ensures Elements(t + [x]) == Elements(t) + {x}
    ensures x == t[|t| - 1] ==> Elements(t) + {x} == Elements(t)
    ensures Increasing(t) && t[|t| - 1] < x ==> Increasing(t + [x])
  {
  }

  lemma PackedWindows(s: seq<byte>, packed: seq<int>)
    requires |s| >= 3 && |packed| == |s| - 2 && forall k :: 0 <= k < |packed| ==> packed[k] == Packed(s, k)
    ensures Elements(packed) == Windows(s)
  {
    forall x | x in Windows(s) ensures x in packed {
      var i :| 0 <= i < |s| - 2 && x == Packed(s, i);
      assert packed[i] == x;
    }
  }

  // ----- similarity

  /** The Jaccard similarity of two sets; two empty sets are equal and score 1. */
  function Jaccard(a: set<int>, b: set<int>): real {
    if a == {} && b == {} then 1.0
    else
      assert a + b != {};
      |a * b| as real / |a + b| as real
  }

  lemma JaccardLaws(a: set<int>, b: set<int>)
    ensures Jaccard(a, b) == Jaccard(b, a)
    ensures 0.0 <= Jaccard(a, b) <= 1.0
    ensures Jaccard(a, b) == 1.0 <==> a == b
    ensures Jaccard(a, b) == 0.0 <==> a !! b && a + b != {}
  {
    assert a * b == b * a && a + b == b + a;
    var common, all := a * b, a + b;
    assert all == common + (all - common);
    assert |all| == |common| + |all - common|;
    if a + b != {} {
      assert |all| > 0;
      assert common == {} <==> |common| == 0;
      assert all - common == {} <==> |all - common| == 0;
      assert all - common == {} <==> a == b;
      Ratio(|common|, |all|);
    }
  }

  /** The score is the share of the common elements among all. */
  lemma JaccardCounts(a: set<int>, b: set<int>)
    ensures Jaccard(a, b) * |a + b| as real == |a * b| as real
    ensures |a + b| == 0 ==> Jaccard(a, b) == 1.0
  {
    if a + b != {} {
      assert |a + b| > 0;
    }
  }

  lemma Ratio(n: nat, d: nat)
    requires n <= d && d > 0
    ensures 0.0 <= n as real / d as real <= 1.0
    ensures n as real / d as real == 1.0 <==> n == d
    ensures n as real / d as real == 0.0 <==> n == 0
  {
    var r := n as real / d as real;
    assert r * d as real == n as real;
  }

  /** The merge of two increasing sequences computes exactly the Jaccard similarity of their sets. */
  method JaccardSimilarity(a: seq<int>, b: seq<int>) returns (similarity: real)
    requires Increasing(a) && Increasing(b)
    ensures similarity == Jaccard(Elements(a), Elements(b))
  {
    hide Elements, Increasing;
    NoElements();
    if |a| == 0 && |b| == 0 {
      assert a == [] == b;
      return 1.0;
    }
    var i, j, intersection := 0, 0, 0;
    ghost var common := Elements([]);
    assert a[..0] == [] && b[..0] == [];
    while i < |a| && j < |b|
      invariant i <= |a| && j <= |b|
      invariant intersection == |common|
      invariant Elements(a[..i]) * Elements(b) == common
      invariant Elements(b[..j]) * Elements(a) == common
      decreases |a| + |b| - i - j
    {
      Upto(a, i);
      Upto(b, j);
      Before(a, i, b[j]);
      Before(b, j, a[i]);
      if a[i] == b[j] {
        Meet(Elements(a[..i]), Elements(b), common, a[i]);
        Meet(Elements(b[..j]), Elements(a), common, a[i]);
        common := common + {a[i]};
        intersection := intersection + 1;
        i := i + 1;
        j := j + 1;
      } else if a[i] < b[j] {
        Pass(Elements(a[..i]), Elements(b), Elements(b[..j]), common, a[i]);
        i := i + 1;
      } else {
        Pass(Elements(b[..j]), Elements(a), Elements(a[..i]), common, b[j]);
        j := j + 1;
      }
    }
    assert a[..|a|] == a && b[..|b|] == b;
    UnionSize(a, b);
    assert common == Elements(a) * Elements(b);
    var union := |a| + |b| - intersection;
    similarity := intersection as real / union as real;
  }

  lemma Meet(part: set<int>, other: set<int>, common: set<int>, x: int)
    requires part * other == common && x in other && x !in part
    ensures (part + {x}) * other == common + {x} && |common + {x}| == |common| + 1
  {
  }

  lemma Pass(part: set<int>, other: set<int>, otherPart: set<int>, common: set<int>, x: int)
    requires part * other == common && x !in part && otherPart * {x} <= common && (x in other ==> x in otherPart)
    ensures (part + {x}) * other == common
  {
  }

  lemma UnionSize(a: seq<int>, b: seq<int>)
    requires Increasing(a) && Increasing(b)
    ensures Elements(a) * Elements(b) == Elements(b) * Elements(a)
    ensures |Elements(a) + Elements(b)| == |a| + |b| - |Elements(a) * Elements(b)|
    ensures a != [] || b != [] ==> |Elements(a) + Elements(b)| > 0 && !(Elements(a) == {} && Elements(b) == {})
  {
    IncreasingSize(a);
    IncreasingSize(b);
    if a != [] || b != [] {
      assert (if a != [] then a[0] else b[0]) in Elements(a) + Elements(b);
    }
  }

  lemma NoElements()
    ensures Elements([]) == {}
  {
  }

  /** The element at `j` is one of the elements, and a smaller one can only be before it. */
  lemma Before(t: seq<int>, j: nat, x: int)
    requires Increasing(t) && j < |t|
    ensures t[j] in Elements(t)
    ensures x < t[j] && x in Elements(t) ==> x in Elements(t[..j])
  {
    if x < t[j] && x in t {
      var k :| 0 <= k < |t| && t[k] == x;
      assert k < j;
      assert t[..j][k] == x;
    }
  }
}

/** Sequences without repeats, and the sizes of sets. */
module Collections {

  ghost predicate Distinct<T>(c: seq<T>) {
    forall j, k :: 0 <= j < k < |c| ==> c[j] != c[k]
  }

  /** The sequence without position j. */
  function Cut<T>(c: seq<T>, j: nat): seq<T>
    requires j < |c|
  {
    c[..j] + c[j + 1..]
  }

  /** Position i of what is left is position i or i + 1 of what was there. */
  lemma CutAt<T>(c: seq<T>, j: nat, i: nat)
    requires j < |c| && i < |c| - 1
    ensures |Cut(c, j)| == |c| - 1 && Cut(c, j)[i] == c[if i < j then i else i + 1]
  {}

  lemma CutMembers<T>(c: seq<T>, j: nat)
    requires Distinct(c) && j < |c|
    ensures forall x :: x in Cut(c, j) <==> x in c && x != c[j]
    ensures Distinct(Cut(c, j))
  {
    var d := Cut(c, j);
    forall x | x in c && x != c[j]
      ensures x in d
    {
      var k :| 0 <= k < |c| && c[k] == x;
      assert d[if k < j then k else k - 1] == x;
    }
  }

  lemma {:induction false} SubsetSize<T>(a: set<T>, b: set<T>)
    requires a <= b
    ensures |a| <= |b| && (|a| == |b| ==> a == b)
  {
    if a != {} {
      var x :| x in a;
      SubsetSize(a - {x}, b - {x});
      assert |a - {x}| == |b - {x}| ==> a == (a - {x}) + {x} == (b - {x}) + {x} == b;
    }
  }
}

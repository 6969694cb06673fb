/** Parts of sequences and sizes of sets, shared by the other modules. */
module Collections {

  predicate PartAt<T(==)>(s: seq<T>, p: seq<T>, i: nat) {
    i + |p| <= |s| && s[i..i + |p|] == p
  }

  predicate Contains<T(==)>(s: seq<T>, p: seq<T>) {
    exists i :: 0 <= i <= |s| && PartAt(s, p, i)
  }

  lemma {:induction false} SubsetIsSmaller<T>(x: set<T>, y: set<T>)
    requires x <= y
    ensures |x| <= |y|
    decreases x
  {
    if e :| e in x { SubsetIsSmaller(x - {e}, y - {e}); }
  }
}

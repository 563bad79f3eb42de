/** The list operations the evaluator uses on its parallel lists, on sequences. */
module Lists {

  /** `list.pop(k)`: the list without its entry at k; entries after k move down by one. */
  function Pop<T>(s: seq<T>, k: nat): (r: seq<T>)
    requires k < |s|
    ensures |r| == |s| - 1
    ensures forall j :: 0 <= j < k ==> r[j] == s[j]
    ensures forall j :: k <= j < |r| ==> r[j] == s[j + 1]
  {
    s[..k] + s[k + 1..]
  }

  /** Appending is associative. */
  lemma AppendAssoc<T>(x: seq<T>, y: seq<T>, z: seq<T>)
    ensures (x + y) + z == x + (y + z)
  {
  }

  /** No value occurs twice among the first n entries. */
  predicate DistinctUpTo<T(==)>(s: seq<T>, n: nat)
    requires n <= |s|
  {
    n == 0 || (DistinctUpTo(s, n - 1) && forall i :: 0 <= i < n - 1 ==> s[i] != s[n - 1])
  }

  /** No value occurs twice. */
  predicate Distinct<T(==)>(s: seq<T>) {
    DistinctUpTo(s, |s|)
  }

  /** No value occurs in both s and the first n entries of t. */
  predicate DisjointUpTo<T(==)>(s: seq<T>, t: seq<T>, n: nat)
    requires n <= |t|
  {
    n == 0 || (DisjointUpTo(s, t, n - 1) && t[n - 1] !in s)
  }

  /** No value occurs in both sequences. */
  predicate Disjoint<T(==)>(s: seq<T>, t: seq<T>) {
    DisjointUpTo(s, t, |t|)
  }

  /** The first n entries are distinct when entries at different positions below n differ. */
  lemma {:induction false} DistinctUpToIff<T>(s: seq<T>, n: nat)
    requires n <= |s|
    ensures DistinctUpTo(s, n) <==> forall i, j :: 0 <= i < j < n ==> s[i] != s[j]
  {
    if n > 0 {
      DistinctUpToIff(s, n - 1);
    }
  }

  /** Distinct means that entries at different positions differ. */
  lemma DistinctIff<T>(s: seq<T>)
    ensures Distinct(s) <==> forall i, j :: 0 <= i < j < |s| ==> s[i] != s[j]
  {
    DistinctUpToIff(s, |s|);
  }

  /** s and the first n entries of t share no value when no two entries of them are equal. */
  lemma {:induction false} DisjointUpToIff<T>(s: seq<T>, t: seq<T>, n: nat)
    requires n <= |t|
    ensures DisjointUpTo(s, t, n) <==> forall i, j :: 0 <= i < |s| && 0 <= j < n ==> s[i] != t[j]
  {
    if n > 0 {
      DisjointUpToIff(s, t, n - 1);
    }
  }

  /** Disjoint means that no entry of the one equals an entry of the other. */
  lemma DisjointIff<T>(s: seq<T>, t: seq<T>)
    ensures Disjoint(s, t) <==> forall i, j :: 0 <= i < |s| && 0 <= j < |t| ==> s[i] != t[j]
  {
    DisjointUpToIff(s, t, |t|);
  }

  /** `list.index`: the first position of v in s. Callers only ask for values in the list. */
  function IndexOf<T(==)>(s: seq<T>, v: T): (i: nat)
    requires v in s
    ensures i < |s| && s[i] == v
    ensures forall k :: 0 <= k < i ==> s[k] != v
  {
    if s[0] == v then 0 else 1 + IndexOf(s[1..], v)
  }

  /** In a list without repeats, `index` finds the one position that holds the value. */
  lemma IndexInDistinct<T>(s: seq<T>, x: nat, k: nat)
    requires Distinct(s) && x < |s| && k < |s| && s[k] == s[x]
    ensures k == x
  {
    DistinctIff(s);
  }

  /** Moving the entry at k from one list to the end of another keeps both lists free of
      repeats and free of shared values, and loses or duplicates nothing. */
  lemma MoveKeepsDistinct<T>(s: seq<T>, t: seq<T>, k: nat)
    requires k < |s| && Distinct(s) && Distinct(t) && Disjoint(s, t)
    ensures Distinct(Pop(s, k)) && Distinct(t + [s[k]]) && Disjoint(Pop(s, k), t + [s[k]])
    ensures multiset(Pop(s, k)) + multiset(t + [s[k]]) == multiset(s) + multiset(t)
  {
    DistinctIff(s);
    DistinctIff(t);
    DisjointIff(s, t);
    var r := Pop(s, k);
    var t' := t + [s[k]];
    PopKeepsDistinct(s, k);
    DistinctIff(t');
    DisjointIff(r, t');
    forall i, j | 0 <= i < |r| && 0 <= j < |t'|
      ensures r[i] != t'[j]
    {
      if j < |t| {
        assert r[i] == s[if i < k then i else i + 1];
      } else {
        assert r[i] == s[if i < k then i else i + 1];
      }
    }
    assert s == s[..k] + [s[k]] + s[k + 1..];
  }

  /** Popping from a list without repeats leaves one without repeats. */
  lemma PopKeepsDistinct<T>(s: seq<T>, k: nat)
    requires k < |s| && Distinct(s)
    ensures Distinct(Pop(s, k))
  {
    DistinctIff(s);
    var r := Pop(s, k);
    DistinctIff(r);
    forall i, j | 0 <= i < j < |r|
      ensures r[i] != r[j]
    {
      assert r[i] == s[if i < k then i else i + 1];
      assert r[j] == s[if j < k then j else j + 1];
    }
  }

  /** Appending a value the list does not hold keeps it free of repeats. */
  lemma AppendKeepsDistinct<T>(s: seq<T>, v: T)
    requires Distinct(s) && v !in s
    ensures Distinct(s + [v])
  {
    DistinctIff(s);
    DistinctIff(s + [v]);
  }

  /** In a sequence without repeats every entry occurs exactly once. */
  lemma DistinctOnce<T>(s: seq<T>, j: nat)
    requires Distinct(s) && j < |s|
    ensures multiset(s)[s[j]] == 1
  {
    DistinctIff(s);
    assert s == s[..j] + [s[j]] + s[j + 1..];
    assert s[j] !in s[..j];
    assert s[j] !in s[j + 1..];
  }
}

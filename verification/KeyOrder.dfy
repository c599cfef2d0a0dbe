/** Sorting of keyed members by key, in the code-point order of strings. */
module KeyOrder {
  import opened JsonText

  predicate Less(a: string, b: string) {
    b != [] && (a == [] || a[0] < b[0] || (a[0] == b[0] && Less(a[1..], b[1..])))
  }

  lemma {:induction false} LessIrreflexive(a: string)
    ensures !Less(a, a)
  {
    if a != [] {
      LessIrreflexive(a[1..]);
    }
  }

  lemma {:induction false} LessTransitive(a: string, b: string, c: string)
    requires Less(a, b) && Less(b, c)
    ensures Less(a, c)
  {
    if a != [] && a[0] == b[0] && b[0] == c[0] {
      LessTransitive(a[1..], b[1..], c[1..]);
    }
  }

  lemma {:induction false} LessTotal(a: string, b: string)
    requires a != b
    ensures Less(a, b) || Less(b, a)
  {
    if a != [] && b != [] && a[0] == b[0] {
      assert a == [a[0]] + a[1..] && b == [b[0]] + b[1..];
      LessTotal(a[1..], b[1..]);
    }
  }

  // Less is the ascending order by the first differing character, a proper prefix coming first.
  lemma {:induction false} LessIsLexicographic(a: string, b: string)
    ensures Less(a, b) <==>
            exists k: nat :: k <= |a| && k < |b| && a[..k] == b[..k] && (k < |a| ==> a[k] < b[k])
  {
    if b == [] {
    } else if a == [] {
      assert a[..0] == b[..0];
    } else if a[0] == b[0] {
      LessIsLexicographic(a[1..], b[1..]);
      if Less(a, b) {
        var k: nat :| k <= |a[1..]| && k < |b[1..]| && a[1..][..k] == b[1..][..k] &&
                      (k < |a[1..]| ==> a[1..][k] < b[1..][k]);
        assert a[..k + 1] == [a[0]] + a[1..][..k] && b[..k + 1] == [b[0]] + b[1..][..k];
      }
      forall k: nat | k <= |a| && k < |b| && a[..k] == b[..k] && (k < |a| ==> a[k] < b[k])
        ensures Less(a, b)
      {
        assert k > 0;
        assert a[1..][..k - 1] == a[..k][1..] && b[1..][..k - 1] == b[..k][1..];
      }
    } else {
      assert a[..0] == b[..0];
      assert forall k: nat | 0 < k <= |a| && k <= |b| :: a[..k][0] == a[0] && b[..k][0] == b[0];
    }
  }

  predicate DistinctKeys<T(!new)>(members: seq<Keyed<T>>) {
    forall i, j | 0 <= i < j < |members| :: members[i].key != members[j].key
  }

  predicate Sorted<T(!new)>(members: seq<Keyed<T>>) {
    forall i, j | 0 <= i < j < |members| :: Less(members[i].key, members[j].key)
  }

  ghost predicate SameMembers<T(!new)>(a: seq<Keyed<T>>, b: seq<Keyed<T>>) {
    forall m :: m in a <==> m in b
  }

  function Insert<T(!new)>(m: Keyed<T>, sorted: seq<Keyed<T>>): (r: seq<Keyed<T>>)
    ensures |r| == |sorted| + 1
    ensures forall x :: x in r <==> x == m || x in sorted
  {
    if sorted == [] || !Less(sorted[0].key, m.key) then [m] + sorted
    else [sorted[0]] + Insert(m, sorted[1..])
  }

  function Sort<T(!new)>(members: seq<Keyed<T>>): (r: seq<Keyed<T>>)
    ensures |r| == |members|
    ensures SameMembers(r, members)
  {
    if members == [] then [] else Insert(members[0], Sort(members[1..]))
  }

  lemma {:induction false} InsertSorts<T(!new)>(m: Keyed<T>, sorted: seq<Keyed<T>>)
    requires Sorted(sorted) && forall x | x in sorted :: x.key != m.key
    ensures Sorted(Insert(m, sorted))
  {
    if sorted == [] {
    } else if !Less(sorted[0].key, m.key) {
      LessTotal(sorted[0].key, m.key);
      forall i | 0 <= i < |sorted|
        ensures Less(m.key, sorted[i].key)
      {
        if i > 0 {
          LessTransitive(m.key, sorted[0].key, sorted[i].key);
        }
      }
    } else {
      var rest := Insert(m, sorted[1..]);
      InsertSorts(m, sorted[1..]);
      forall x | x in rest
        ensures Less(sorted[0].key, x.key)
      {
      }
    }
  }

  lemma {:induction false} SortSorts<T(!new)>(members: seq<Keyed<T>>)
    requires DistinctKeys(members)
    ensures Sorted(Sort(members))
  {
    if members != [] {
      SortSorts(members[1..]);
      forall x | x in Sort(members[1..])
        ensures x.key != members[0].key
      {
      }
      InsertSorts(members[0], Sort(members[1..]));
    }
  }

  lemma SortedHeadIsLeast<T(!new)>(a: seq<Keyed<T>>, b: seq<Keyed<T>>)
    requires Sorted(a) && Sorted(b) && SameMembers(a, b) && a != [] && b != []
    ensures a[0] == b[0]
  {
    if a[0] != b[0] {
      assert a[0] in b && b[0] in a;
      var i :| 0 <= i < |b| && b[i] == a[0];
      var j :| 0 <= j < |a| && a[j] == b[0];
      LessTransitive(a[0].key, b[0].key, a[0].key);
      LessIrreflexive(a[0].key);
    }
  }

  // A sorted sequence is determined by its members.
  lemma {:induction false} SortedUnique<T(!new)>(a: seq<Keyed<T>>, b: seq<Keyed<T>>)
    requires Sorted(a) && Sorted(b) && SameMembers(a, b)
    ensures a == b
  {
    assert b != [] ==> b[0] in a;
    if a == [] {
    } else {
      assert a[0] in a;
      SortedHeadIsLeast(a, b);
      LessIrreflexive(a[0].key);
      assert a == [a[0]] + a[1..] && b == [b[0]] + b[1..];
      assert a[0] !in a[1..] && b[0] !in b[1..];
      forall m
        ensures m in a[1..] <==> m in b[1..]
      {
        assert m in a <==> m == a[0] || m in a[1..];
        assert m in b <==> m == b[0] || m in b[1..];
      }
      SortedUnique(a[1..], b[1..]);
    }
  }

  // Sorting forgets the order of the input.
  lemma SortIgnoresOrder<T(!new)>(a: seq<Keyed<T>>, b: seq<Keyed<T>>)
    requires DistinctKeys(a) && DistinctKeys(b) && SameMembers(a, b)
    ensures Sort(a) == Sort(b)
  {
    SortSorts(a);
    SortSorts(b);
    SortedUnique(Sort(a), Sort(b));
  }
}

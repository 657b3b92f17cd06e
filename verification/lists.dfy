/** Sequence helpers shared by the stores, the slug transform and the filter
    panel: JavaScript's `Array.prototype.filter` over immutable sequences, and
    "no two elements share a key". */
module Lists {

  /** `s.filter(p)`: the elements of `s` that satisfy `p`, in their original order. */
  function Filter<T>(p: T -> bool, s: seq<T>): (r: seq<T>)
    ensures |r| <= |s|
    ensures forall i :: 0 <= i < |r| ==> p(r[i])
  {
    if |s| == 0 then []
    else if p(s[0]) then [s[0]] + Filter(p, s[1..])
    else Filter(p, s[1..])
  }

  /** The survivors are exactly the elements of `s` that satisfy `p`. */
  lemma {:induction false} FilterMembers<T>(p: T -> bool, s: seq<T>)
    ensures forall i :: 0 <= i < |Filter(p, s)| ==> Filter(p, s)[i] in s
    ensures forall i :: 0 <= i < |s| && p(s[i]) ==> s[i] in Filter(p, s)
  {
    if |s| > 0 {
      FilterMembers(p, s[1..]);
      var r := Filter(p, s);
      forall i | 0 <= i < |r| ensures r[i] in s {
        if p(s[0]) && i == 0 {
        } else {
          var rest := Filter(p, s[1..]);
          var j := if p(s[0]) then i - 1 else i;
          assert r[i] == rest[j];
          assert rest[j] in s[1..];
        }
      }
      forall i | 0 <= i < |s| && p(s[i]) ensures s[i] in r {
        if i > 0 {
          assert s[i] == s[1..][i - 1];
        }
      }
    }
  }

  /** Filtering keeps everything when every element passes ... */
  lemma {:induction false} FilterAll<T>(p: T -> bool, s: seq<T>)
    requires forall i :: 0 <= i < |s| ==> p(s[i])
    ensures Filter(p, s) == s
  {
    if |s| > 0 {
      FilterAll(p, s[1..]);
    }
  }

  /** `FilterAll` as an implication, for callers that do not know whether
      every element passes. */
  lemma FilterAllIf<T>(p: T -> bool, s: seq<T>)
    ensures (forall i :: 0 <= i < |s| ==> p(s[i])) ==> Filter(p, s) == s
  {
    if forall i :: 0 <= i < |s| ==> p(s[i]) {
      FilterAll(p, s);
    }
  }

  /** ... and nothing when no element passes. */
  lemma {:induction false} FilterNone<T>(p: T -> bool, s: seq<T>)
    requires forall i :: 0 <= i < |s| ==> !p(s[i])
    ensures Filter(p, s) == []
  {
    if |s| > 0 {
      FilterNone(p, s[1..]);
    }
  }

  /** Filtering distributes over concatenation: the survivors keep their relative order. */
  lemma {:induction false} FilterAppend<T>(p: T -> bool, a: seq<T>, b: seq<T>)
    ensures Filter(p, a + b) == Filter(p, a) + Filter(p, b)
  {
    if |a| == 0 {
      assert a + b == b;
    } else {
      assert (a + b)[1..] == a[1..] + b;
      FilterAppend(p, a[1..], b);
    }
  }

  /** Filtering keeps every occurrence of a passing value and none of a
      failing one. */
  lemma {:induction false} FilterCount<T>(p: T -> bool, s: seq<T>, y: T)
    ensures multiset(Filter(p, s))[y] == if p(y) then multiset(s)[y] else 0
  {
    if |s| > 0 {
      FilterCount(p, s[1..], y);
      assert s == [s[0]] + s[1..];
    }
  }

  /** Element `i` of `s` is element `i - 1` of its tail, and of the tail of
      any `[x] + s`. */
  lemma TailIndex<T>(x: T, s: seq<T>)
    ensures forall i :: 1 <= i < |s| ==> s[i] == s[1..][i - 1]
    ensures forall i :: 1 <= i <= |s| ==> ([x] + s)[i] == s[i - 1]
  {
  }

  /** Appending one element keeps the prefix and puts the element last. */
  lemma AppendLast<T>(s: seq<T>, x: T)
    ensures (s + [x])[..|s|] == s && (s + [x])[|s|] == x
    ensures forall k :: 0 <= k < |s| ==> (s + [x])[k] == s[k]
  {
  }

  /** The slice from 0 to the end is the whole sequence. */
  lemma WholeSlice<T>(s: seq<T>)
    ensures s[0..] == s
  {
  }

  /** Where the parts of `a + b + c + d` sit. */
  lemma Concat4<T>(a: seq<T>, b: seq<T>, c: seq<T>, d: seq<T>)
    ensures forall i :: 0 <= i < |a| ==> (a + b + c + d)[i] == a[i]
    ensures forall i :: 0 <= i < |b| ==> (a + b + c + d)[|a| + i] == b[i]
    ensures forall i :: 0 <= i < |c| ==> (a + b + c + d)[|a| + |b| + i] == c[i]
  {
  }

  /** Membership in a four-part concatenation is membership in one part. */
  lemma Concat4Members<T>(a: seq<T>, b: seq<T>, c: seq<T>, d: seq<T>)
    ensures forall x :: x in a + b + c + d <==> x in a || x in b || x in c || x in d
  {
  }

  /** No two elements of `s` have the same key. */
  predicate UniqueBy<T, K(==)>(key: T -> K, s: seq<T>)
  {
    forall i, j :: 0 <= i < j < |s| ==> key(s[i]) != key(s[j])
  }

  /** Filtering keeps the keys of the survivors distinct. */
  lemma {:induction false} FilterKeepsUnique<T, K>(key: T -> K, p: T -> bool, s: seq<T>)
    ensures UniqueBy(key, s) ==> UniqueBy(key, Filter(p, s))
  {
    if |s| > 0 && UniqueBy(key, s) {
      FilterKeepsUnique(key, p, s[1..]);
      FilterMembers(p, s[1..]);
      if p(s[0]) {
        var rest := Filter(p, s[1..]);
        var r := [s[0]] + rest;
        forall i, j | 0 <= i < j < |r|
          ensures key(r[i]) != key(r[j])
        {
          if i == 0 {
            assert r[j] == rest[j - 1];
            assert rest[j - 1] in s[1..];
            var k :| 0 <= k < |s[1..]| && s[1..][k] == rest[j - 1];
            assert s[k + 1] == r[j];
          } else {
            assert r[i] == rest[i - 1] && r[j] == rest[j - 1];
          }
        }
      }
    }
  }
}

/**
 Choice of the artifact to upload when the scan of the build directory finds
 several package files: the list is sorted newest first with a stable sort
 (Collections.sort with a descending lastModified comparator) and its head is
 taken. The sort is modelled twice, as a function on sequences and as an
 in-place method on an array, and its head is shown to be the first of the
 newest candidates in scan order.
 */
module ArtifactSelection {

  /** A file reported by the scan, with the value File.lastModified gives for it. */
  datatype Candidate = Candidate(name: string, lastModified: int)

  /** Index i holds a newest candidate and every candidate scanned before it is strictly older. */
  predicate IsFirstNewest(cs: seq<Candidate>, i: int) {
    && 0 <= i < |cs|
    && (forall j :: 0 <= j < |cs| ==> cs[j].lastModified <= cs[i].lastModified)
    && (forall j :: 0 <= j < i ==> cs[j].lastModified < cs[i].lastModified)
  }

  /** The reference selection rule: the newest candidate, the earliest scanned among equals. */
  function FirstNewest(cs: seq<Candidate>): (r: nat)
    requires |cs| > 0
    ensures IsFirstNewest(cs, r)
  {
    if |cs| == 1 then 0
    else
      var k := FirstNewest(cs[..|cs| - 1]);
      if cs[|cs| - 1].lastModified > cs[k].lastModified then |cs| - 1 else k
  }

  /** At most one index satisfies IsFirstNewest, so the selection rule is a function of the scan. */
  lemma FirstNewestUnique(cs: seq<Candidate>, i: int, j: int)
    requires IsFirstNewest(cs, i) && IsFirstNewest(cs, j)
    ensures i == j
  {
    assert cs[i].lastModified == cs[j].lastModified;
  }

  /** Non-increasing by modification time: what the descending comparator asks for. */
  predicate SortedNewestFirst(s: seq<Candidate>) {
    forall i, j :: 0 <= i < j < |s| ==> s[i].lastModified >= s[j].lastModified
  }

  /** Insert x into a list sorted newest first, after every element at least as new as x. */
  function Insert(t: seq<Candidate>, x: Candidate): seq<Candidate>
  {
    if |t| == 0 then [x]
    else if t[|t| - 1].lastModified >= x.lastModified then t + [x]
    else Insert(t[..|t| - 1], x) + [t[|t| - 1]]
  }

  /** Stable sort, newest first (insertion sort, taking the elements in scan order). */
  function SortNewestFirst(s: seq<Candidate>): seq<Candidate>
  {
    if |s| == 0 then [] else Insert(SortNewestFirst(s[..|s| - 1]), s[|s| - 1])
  }

  /** The candidates of s whose modification time is exactly t, in their order in s. */
  function WithTime(s: seq<Candidate>, t: int): seq<Candidate>
  {
    if |s| == 0 then []
    else WithTime(s[..|s| - 1], t) + (if s[|s| - 1].lastModified == t then [s[|s| - 1]] else [])
  }

  // ---------------------------------------------------------------------
  // Properties of WithTime

  lemma {:induction false} WithTimeAppend(a: seq<Candidate>, b: seq<Candidate>, t: int)
    ensures WithTime(a + b, t) == WithTime(a, t) + WithTime(b, t)
  {
    if |b| == 0 {
      assert a + b == a;
    } else {
      var b' := b[..|b| - 1];
      assert (a + b)[..|a + b| - 1] == a + b';
      WithTimeAppend(a, b', t);
    }
  }

  /** Splitting off the head of a sequence. */
  lemma WithTimeCons(s: seq<Candidate>, t: int)
    requires |s| > 0
    ensures WithTime(s, t) == (if s[0].lastModified == t then [s[0]] else []) + WithTime(s[1..], t)
  {
    assert s == [s[0]] + s[1..];
    WithTimeAppend([s[0]], s[1..], t);
    assert [s[0]][..0] == [];
  }

  lemma {:induction false} WithTimeMembers(s: seq<Candidate>, t: int, e: Candidate)
    requires e in WithTime(s, t)
    ensures e in s && e.lastModified == t
  {
    if |s| > 0 {
      var s' := s[..|s| - 1];
      if e in WithTime(s', t) {
        WithTimeMembers(s', t, e);
        assert s == s' + [s[|s| - 1]];
      }
    }
  }

  // ---------------------------------------------------------------------
  // Properties of Insert and SortNewestFirst

  lemma {:induction false} InsertMultiset(t: seq<Candidate>, x: Candidate)
    ensures multiset(Insert(t, x)) == multiset(t) + multiset{x}
  {
    if |t| > 0 && t[|t| - 1].lastModified < x.lastModified {
      var t' := t[..|t| - 1];
      InsertMultiset(t', x);
      assert t == t' + [t[|t| - 1]];
    }
  }

  /** The sort is a permutation of the scanned list. */
  lemma {:induction false} SortPermutes(s: seq<Candidate>)
    ensures multiset(SortNewestFirst(s)) == multiset(s)
    ensures |SortNewestFirst(s)| == |s|
  {
    if |s| > 0 {
      var s' := s[..|s| - 1];
      SortPermutes(s');
      InsertMultiset(SortNewestFirst(s'), s[|s| - 1]);
      assert s == s' + [s[|s| - 1]];
    }
    assert |multiset(SortNewestFirst(s))| == |multiset(s)|;
  }

  lemma {:induction false} InsertSorted(t: seq<Candidate>, x: Candidate)
    requires SortedNewestFirst(t)
    ensures SortedNewestFirst(Insert(t, x))
  {
    if |t| > 0 && t[|t| - 1].lastModified < x.lastModified {
      var t' := t[..|t| - 1];
      var last := t[|t| - 1];
      var u := Insert(t', x);
      InsertSorted(t', x);
      InsertMultiset(t', x);
      forall i | 0 <= i < |u| ensures u[i].lastModified >= last.lastModified {
        assert u[i] in multiset(t') + multiset{x};
        if u[i] != x {
          assert u[i] in t';
          var j :| 0 <= j < |t'| && t'[j] == u[i];
          assert t[j] == u[i];
        }
      }
    }
  }

  /** The sort orders the list newest first. */
  lemma {:induction false} SortSorted(s: seq<Candidate>)
    ensures SortedNewestFirst(SortNewestFirst(s))
  {
    if |s| > 0 {
      SortSorted(s[..|s| - 1]);
      InsertSorted(SortNewestFirst(s[..|s| - 1]), s[|s| - 1]);
    }
  }

  lemma {:induction false} InsertWithTime(t: seq<Candidate>, x: Candidate, k: int)
    ensures WithTime(Insert(t, x), k) == WithTime(t, k) + (if x.lastModified == k then [x] else [])
  {
    if |t| == 0 {
      assert WithTime([x], k) == WithTime([x][..0], k) + (if x.lastModified == k then [x] else []);
    } else if t[|t| - 1].lastModified >= x.lastModified {
      WithTimeAppend(t, [x], k);
      assert [x][..0] == [];
    } else {
      var t' := t[..|t| - 1];
      var last := t[|t| - 1];
      InsertWithTime(t', x, k);
      WithTimeAppend(Insert(t', x), [last], k);
      assert [last][..0] == [];
    }
  }

  /** Stability: among candidates with the same modification time, the sort keeps scan order. */
  lemma {:induction false} SortStable(s: seq<Candidate>, k: int)
    ensures WithTime(SortNewestFirst(s), k) == WithTime(s, k)
  {
    if |s| > 0 {
      SortStable(s[..|s| - 1], k);
      InsertWithTime(SortNewestFirst(s[..|s| - 1]), s[|s| - 1], k);
    }
  }

  /** The head of a list sorted newest first is at least as new as any of its elements. */
  lemma SortedHeadNewest(r: seq<Candidate>, e: Candidate)
    requires SortedNewestFirst(r) && e in r
    ensures e.lastModified <= r[0].lastModified
  {
  }

  /** Two sorted lists that agree on every timestamp class start with the same element. */
  lemma SameHead(r1: seq<Candidate>, r2: seq<Candidate>)
    requires |r1| > 0 && |r2| > 0
    requires SortedNewestFirst(r1) && SortedNewestFirst(r2)
    requires forall k :: WithTime(r1, k) == WithTime(r2, k)
    ensures r1[0] == r2[0]
  {
    var k1, k2 := r1[0].lastModified, r2[0].lastModified;
    WithTimeCons(r1, k1);
    WithTimeCons(r2, k2);
    assert r1[0] in WithTime(r2, k1);
    WithTimeMembers(r2, k1, r1[0]);
    SortedHeadNewest(r2, r1[0]);
    assert r2[0] in WithTime(r1, k2);
    WithTimeMembers(r1, k2, r2[0]);
    SortedHeadNewest(r1, r2[0]);
    WithTimeCons(r2, k1);
    assert r1[0] == WithTime(r1, k1)[0] == WithTime(r2, k1)[0] == r2[0];
  }

  /** Removing a common head keeps two lists in agreement on every timestamp class. */
  lemma TailsAgree(r1: seq<Candidate>, r2: seq<Candidate>)
    requires |r1| > 0 && |r2| > 0 && r1[0] == r2[0]
    requires forall k :: WithTime(r1, k) == WithTime(r2, k)
    ensures forall k :: WithTime(r1[1..], k) == WithTime(r2[1..], k)
  {
    forall k ensures WithTime(r1[1..], k) == WithTime(r2[1..], k) {
      WithTimeCons(r1, k);
      WithTimeCons(r2, k);
      var h := if r1[0].lastModified == k then [r1[0]] else [];
      assert WithTime(r1[1..], k) == WithTime(r1, k)[|h|..];
      assert WithTime(r2[1..], k) == WithTime(r2, k)[|h|..];
    }
  }

  /** Two lists sorted newest first that agree on every timestamp class are equal. */
  lemma {:induction false} SortedAgreeingEqual(r1: seq<Candidate>, r2: seq<Candidate>)
    requires SortedNewestFirst(r1) && SortedNewestFirst(r2)
    requires forall k :: WithTime(r1, k) == WithTime(r2, k)
    ensures r1 == r2
    decreases |r1|
  {
    if |r1| == 0 && |r2| == 0 {
    } else if |r1| == 0 {
      WithTimeCons(r2, r2[0].lastModified);
    } else if |r2| == 0 {
      WithTimeCons(r1, r1[0].lastModified);
    } else {
      SameHead(r1, r2);
      TailsAgree(r1, r2);
      SortedAgreeingEqual(r1[1..], r2[1..]);
      assert r1 == [r1[0]] + r1[1..];
      assert r2 == [r2[0]] + r2[1..];
    }
  }

  /** Any stable sort newest first (Collections.sort in particular) yields SortNewestFirst(s). */
  lemma StableSortUnique(s: seq<Candidate>, r: seq<Candidate>)
    requires SortedNewestFirst(r)
    requires forall k :: WithTime(r, k) == WithTime(s, k)
    ensures r == SortNewestFirst(s)
  {
    SortSorted(s);
    forall k ensures WithTime(r, k) == WithTime(SortNewestFirst(s), k) {
      SortStable(s, k);
    }
    SortedAgreeingEqual(r, SortNewestFirst(s));
  }

  lemma {:induction false} InsertKeepsHead(t: seq<Candidate>, x: Candidate)
    requires |t| > 0 && t[0].lastModified >= x.lastModified
    ensures Insert(t, x)[0] == t[0]
  {
    if |t| > 1 && t[|t| - 1].lastModified < x.lastModified {
      InsertKeepsHead(t[..|t| - 1], x);
    }
  }

  lemma {:induction false} InsertNewestFirst(t: seq<Candidate>, x: Candidate)
    requires forall i :: 0 <= i < |t| ==> t[i].lastModified < x.lastModified
    ensures Insert(t, x)[0] == x
  {
    if |t| > 0 {
      InsertNewestFirst(t[..|t| - 1], x);
    }
  }

  /** The head of the sorted list is the candidate the reference rule selects. */
  lemma {:induction false} SortHead(s: seq<Candidate>)
    requires |s| > 0
    ensures |SortNewestFirst(s)| == |s|
    ensures SortNewestFirst(s)[0] == s[FirstNewest(s)]
  {
    SortPermutes(s);
    if |s| > 1 {
      var s' := s[..|s| - 1];
      var x := s[|s| - 1];
      var t := SortNewestFirst(s');
      var k := FirstNewest(s');
      SortHead(s');
      SortPermutes(s');
      if x.lastModified > s'[k].lastModified {
        forall i | 0 <= i < |t| ensures t[i].lastModified < x.lastModified {
          assert t[i] in multiset(s');
          var j :| 0 <= j < |s'| && s'[j] == t[i];
        }
        InsertNewestFirst(t, x);
      } else {
        InsertKeepsHead(t, x);
      }
    }
  }

  // ---------------------------------------------------------------------
  // The in-place sort

  /** Insert puts x right after the last element at least as new as x. */
  lemma {:induction false} InsertSplit(t: seq<Candidate>, x: Candidate, j: nat)
    requires j <= |t|
    requires forall k :: j <= k < |t| ==> t[k].lastModified < x.lastModified
    requires j == 0 || t[j - 1].lastModified >= x.lastModified
    ensures Insert(t, x) == t[..j] + [x] + t[j..]
    decreases |t|
  {
    if j < |t| {
      var t' := t[..|t| - 1];
      InsertSplit(t', x, j);
      assert Insert(t, x) == Insert(t', x) + [t[|t| - 1]];
      assert t'[..j] == t[..j];
      assert t[j..] == t'[j..] + [t[|t| - 1]];
    } else if j > 0 {
      assert t[..j] == t;
    }
  }

  /** One step of the insertion sort: a[i] is moved into the sorted prefix a[..i]. */
  method InsertInPlace(a: array<Candidate>, i: nat)
    requires i < a.Length
    modifies a
    ensures a[..i + 1] == Insert(old(a[..i]), old(a[i]))
    ensures a[i + 1..] == old(a[i + 1..])
  {
    ghost var sorted := a[..i];
    var x := a[i];
    var j := i;
    while j > 0 && a[j - 1].lastModified < x.lastModified
      invariant 0 <= j <= i
      invariant forall k :: 0 <= k < j ==> a[k] == sorted[k]
      invariant forall k :: j < k <= i ==> a[k] == sorted[k - 1]
      invariant forall k :: i < k < a.Length ==> a[k] == old(a[k])
      invariant forall k :: j <= k < i ==> sorted[k].lastModified < x.lastModified
    {
      a[j] := a[j - 1];
      j := j - 1;
    }
    InsertSplit(sorted, x, j);
    ghost var r := sorted[..j] + [x] + sorted[j..];
    a[j] := x;
    forall k | 0 <= k <= i ensures a[k] == r[k] {
      if k > j {
        assert r[k] == sorted[k - 1];
      }
    }
    assert a[..i + 1] == r;
  }

  /** Sorting one more element of s inserts it into the sorted shorter prefix. */
  lemma SortSnoc(s: seq<Candidate>, i: nat)
    requires i < |s|
    ensures SortNewestFirst(s[..i + 1]) == Insert(SortNewestFirst(s[..i]), s[i])
  {
    assert s[..i + 1][..i] == s[..i];
  }

  /** Collections.sort(strings, newest first) on the scanned list, as an in-place insertion sort. */
  method SortInPlace(a: array<Candidate>)
    modifies a
    ensures a[..] == SortNewestFirst(old(a[..]))
  {
    ghost var input := a[..];
    var i := 0;
    while i < a.Length
      invariant 0 <= i <= a.Length
      invariant a[..i] == SortNewestFirst(input[..i])
      invariant a[i..] == input[i..]
    {
      assert a[i] == input[i];
      InsertInPlace(a, i);
      SortSnoc(input, i);
      assert a[..i + 1] == SortNewestFirst(input[..i + 1]);
      i := i + 1;
    }
    assert a[..] == a[..a.Length];
    assert input == input[..a.Length];
  }
}

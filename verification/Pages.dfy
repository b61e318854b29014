/**
 * The page query's reply: the oldest waiting intents up to a page, those of one second in order of id, as the
 * host breaks ties. There is exactly one such reply, and an intent's place in it is the number waiting ahead of it.
 */
module Pages {
  import opened ByteStrings
  import opened Entities

  // ----- the order ----------------------------------------------------------------

  /** Byte strings in dictionary order. */
  predicate LexLess(a: Bytes, b: Bytes)
    decreases |b|
  {
    b != [] && (a == [] || a[0] < b[0] || (a[0] == b[0] && LexLess(a[1..], b[1..])))
  }

  lemma {:induction false} LexAsymmetric(a: Bytes, b: Bytes)
    requires LexLess(a, b)
    ensures !LexLess(b, a) && a != b
    decreases |b|
  {
    if a != [] && a[0] == b[0] {
      LexAsymmetric(a[1..], b[1..]);
    }
  }

  lemma {:induction false} LexTotal(a: Bytes, b: Bytes)
    ensures LexLess(a, b) || LexLess(b, a) || a == b
    decreases |b|
  {
    if a != [] && b != [] && a[0] == b[0] {
      LexTotal(a[1..], b[1..]);
      assert a == [a[0]] + a[1..] && b == [b[0]] + b[1..];
    }
  }

  lemma {:induction false} LexTransitive(a: Bytes, b: Bytes, c: Bytes)
    requires LexLess(a, b) && LexLess(b, c)
    ensures LexLess(a, c)
    decreases |c|
  {
    if a != [] && a[0] == b[0] == c[0] {
      LexTransitive(a[1..], b[1..], c[1..]);
    }
  }

  /** The lesser is a proper start of the other, or has the lesser byte where they first differ. */
  lemma {:induction false} LexLessIff(a: Bytes, b: Bytes, k: nat)
    requires k <= |a| && k <= |b| && a[..k] == b[..k] && (k < |a| && k < |b| ==> a[k] != b[k])
    requires k < |a| || k < |b|
    ensures k < |a| && k < |b| ==> (LexLess(a, b) <==> a[k] < b[k])
    ensures k == |a| || k == |b| ==> (LexLess(a, b) <==> |a| < |b|)
    decreases k
  {
    if k > 0 {
      assert a[0] == a[..k][0] == b[..k][0] == b[0];
      assert a[1..][..k - 1] == a[..k][1..] && b[1..][..k - 1] == b[..k][1..];
      LexLessIff(a[1..], b[1..], k - 1);
    }
  }

  ghost function Waiting(s: Store): set<Bytes> {
    set i | i in s.intents && s.intents[i].fastStatus == FAST_PENDING
  }

  /** Created earlier, or in the same second with a lesser id. */
  predicate Precedes(s: Store, i: Bytes, j: Bytes) {
    && i in s.intents && j in s.intents
    && var a, b := s.intents[i].createdAtTimestamp, s.intents[j].createdAtTimestamp;
       a < b || (a == b && LexLess(i, j))
  }

  lemma PrecedesAsymmetric(s: Store, i: Bytes, j: Bytes)
    requires Precedes(s, i, j)
    ensures !Precedes(s, j, i) && i != j
  {
    if LexLess(i, j) {
      LexAsymmetric(i, j);
    }
  }

  /** The waiting intents in line before one. */
  ghost function WaitingAhead(s: Store, i: Bytes): set<Bytes> {
    set j | j in Waiting(s) && Precedes(s, j, i)
  }

  // ----- pages ----------------------------------------------------------------------

  /** A reply to the page query: in line order, nothing left out that would come before something listed. */
  ghost predicate IsPage(s: Store, size: nat, page: seq<Bytes>) {
    && (forall k :: 0 <= k < |page| ==> page[k] in Waiting(s))
    && (forall j, k :: 0 <= j < k < |page| ==> Precedes(s, page[j], page[k]))
    && (forall i, k :: 0 <= k < |page| && i in Waiting(s) && i !in page ==> Precedes(s, page[k], i))
    && |page| == (if |Waiting(s)| < size then |Waiting(s)| else size)
  }

  lemma {:induction false} DistinctCount(page: seq<Bytes>)
    requires forall j, k :: 0 <= j < k < |page| ==> page[j] != page[k]
    ensures |(set i | i in page)| == |page|
    decreases |page|
  {
    if page != [] {
      var front, last := page[..|page| - 1], page[|page| - 1];
      DistinctCount(front);
      assert (set i | i in page) == (set i | i in front) + {last};
    }
  }

  lemma SubsetCount(a: set<Bytes>, b: set<Bytes>)
    requires a <= b
    ensures |a| <= |b|
    ensures |a| == |b| ==> a == b
  {
    var rest := b - a;
    assert b == a + rest;
    assert |b| == |a| + |rest|;
  }

  lemma PageCount(s: Store, size: nat, page: seq<Bytes>, n: nat)
    requires IsPage(s, size, page) && n <= |page|
    ensures |(set i | i in page[..n])| == n
  {
    forall j, k | 0 <= j < k < n ensures page[j] != page[k] {
      PrecedesAsymmetric(s, page[j], page[k]);
    }
    DistinctCount(page[..n]);
  }

  /** A page holds every waiting intent exactly when they all fit in it. */
  lemma PageCompleteIff(s: Store, size: nat, page: seq<Bytes>)
    requires IsPage(s, size, page)
    ensures (forall i :: i in Waiting(s) ==> i in page) <==> |Waiting(s)| <= size
  {
    hide Precedes, Waiting;
    var listed := set i | i in page;
    PageCount(s, size, page, |page|);
    assert page[..|page|] == page;
    SubsetCount(listed, Waiting(s));
    assert forall i :: i in listed <==> i in page;
    if forall i :: i in Waiting(s) ==> i in page {
      assert listed == Waiting(s);
    }
  }

  /** The intents ahead of one listed are those listed before it. */
  lemma AheadOnPage(s: Store, size: nat, page: seq<Bytes>, k: nat)
    requires IsPage(s, size, page) && k < |page|
    ensures WaitingAhead(s, page[k]) == set i | i in page[..k]
  {
    hide Precedes, Waiting;
    assert forall m :: k < m < |page| ==> Precedes(s, page[k], page[m]);
    forall i | i in WaitingAhead(s, page[k]) ensures i in page[..k] {
      PrecedesAsymmetric(s, i, page[k]);
      assert i in page;
      var m :| 0 <= m < |page| && page[m] == i;
      assert page[..k][m] == i;
    }
    forall i | i in page[..k] ensures i in WaitingAhead(s, page[k]) {
      var m :| 0 <= m < k && page[..k][m] == i;
      assert page[m] == i;
    }
  }

  /** An intent's place on the page is the number waiting ahead of it. */
  lemma PagePosition(s: Store, size: nat, page: seq<Bytes>, k: nat)
    requires IsPage(s, size, page) && k < |page|
    ensures |WaitingAhead(s, page[k])| == k
  {
    hide IsPage, WaitingAhead;
    AheadOnPage(s, size, page, k);
    PageCount(s, size, page, k);
  }

  lemma AbsentIsBehind(s: Store, size: nat, page: seq<Bytes>, i: Bytes)
    requires IsPage(s, size, page) && i in Waiting(s) && i !in page
    ensures |WaitingAhead(s, i)| >= size
  {
    hide Precedes, Waiting;
    var listed := set j | j in page;
    PageCount(s, size, page, |page|);
    assert page[..|page|] == page;
    forall j | j in listed ensures j in WaitingAhead(s, i) {
      var k :| 0 <= k < |page| && page[k] == j;
    }
    SubsetCount(listed, WaitingAhead(s, i));
    SubsetCount(listed, Waiting(s));
    assert i in Waiting(s) && i !in listed;
  }

  /** A waiting intent is on the page exactly when fewer than a page wait ahead of it. */
  lemma PageMembership(s: Store, size: nat, page: seq<Bytes>, i: Bytes)
    requires IsPage(s, size, page) && i in Waiting(s)
    ensures i in page <==> |WaitingAhead(s, i)| < size
  {
    hide Precedes, Waiting, WaitingAhead;
    if i in page {
      var k :| 0 <= k < |page| && page[k] == i;
      PagePosition(s, size, page, k);
    } else {
      AbsentIsBehind(s, size, page, i);
    }
  }

  /** The query has only one right reply. */
  lemma PageIsDetermined(s: Store, size: nat, page: seq<Bytes>, other: seq<Bytes>)
    requires IsPage(s, size, page) && IsPage(s, size, other)
    ensures page == other
  {
    hide Precedes, Waiting, WaitingAhead;
    forall k | 0 <= k < |page| ensures page[k] == other[k] {
      PagePosition(s, size, page, k);
      PageMembership(s, size, page, page[k]);
      PageMembership(s, size, other, page[k]);
      var m :| 0 <= m < |other| && other[m] == page[k];
      PagePosition(s, size, other, m);
    }
  }

  // ----- and one there is ---------------------------------------------------------------

  lemma {:induction false} First(s: Store, some: set<Bytes>) returns (i: Bytes)
    requires some != {} && some <= s.intents.Keys
    ensures i in some && forall j :: j in some && j != i ==> Precedes(s, i, j)
    decreases |some|
  {
    var x :| x in some;
    if some == {x} {
      i := x;
    } else {
      var y := First(s, some - {x});
      i := if Precedes(s, x, y) then x else y;
      LexTotal(x, y);
      forall j | j in some && j != i ensures Precedes(s, i, j) {
        if i == x && j != y {
          PrecedesTransitive(s, x, y, j);
        }
      }
    }
  }

  lemma PrecedesTransitive(s: Store, i: Bytes, j: Bytes, k: Bytes)
    requires Precedes(s, i, j) && Precedes(s, j, k)
    ensures Precedes(s, i, k)
  {
    if LexLess(i, j) && LexLess(j, k) {
      LexTransitive(i, j, k);
    }
  }

  /** A page with room, followed by the first of what is left, is the next size of page. */
  lemma LongerPage(s: Store, size: nat, page: seq<Bytes>, i: Bytes)
    requires IsPage(s, size, page) && |page| == size && i in Waiting(s) && i !in page
    requires forall j :: j in Waiting(s) && j !in page && j != i ==> Precedes(s, i, j)
    ensures IsPage(s, size + 1, page + [i])
  {
    hide Precedes, Waiting;
    var longer, listed := page + [i], set j | j in page;
    PageCount(s, size, page, |page|);
    assert page[..|page|] == page;
    SubsetCount(listed + {i}, Waiting(s));
    forall j, k | 0 <= k < |longer| && j in Waiting(s) && j !in longer ensures Precedes(s, longer[k], j) {
      assert j !in page && j != i;
    }
  }

  /** Every size of page has its reply, built by taking the first of what is left. */
  lemma {:induction false} PageExists(s: Store, size: nat) returns (page: seq<Bytes>)
    ensures IsPage(s, size, page)
    decreases size
  {
    hide Precedes, IsPage;
    if size == 0 {
      page := [];
      EmptyPage(s);
    } else {
      page := PageExists(s, size - 1);
      PageSize(s, size - 1, page);
      if |Waiting(s)| >= size {
        PageCompleteIff(s, size - 1, page);
        var left := set i | i in Waiting(s) && i !in page;
        var some :| some in Waiting(s) && some !in page;
        assert some in left;
        var i := First(s, left);
        LongerPage(s, size - 1, page, i);
        page := page + [i];
      } else {
        StillPage(s, size - 1, page);
      }
    }
  }

  lemma EmptyPage(s: Store)
    ensures IsPage(s, 0, [])
  {}

  lemma PageSize(s: Store, size: nat, page: seq<Bytes>)
    requires IsPage(s, size, page)
    ensures |Waiting(s)| >= size ==> |page| == size
  {}

  lemma StillPage(s: Store, size: nat, page: seq<Bytes>)
    requires IsPage(s, size, page) && |Waiting(s)| <= size
    ensures IsPage(s, size + 1, page)
  {}
}

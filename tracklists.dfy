/** Tracks and the list operations on sequences of tracks that the play list's
    methods are specified against. The play list itself keeps its tracks in an
    array; every postcondition of its methods is stated over the occupied prefix
    of that array, a `seq<Track>`, using the functions of this module. */
module TrackLists {

  /** A track is an immutable value: a title and a duration in seconds.
      Titles are compared by value. */
  datatype Track = Track(title: string, duration: nat)

  /** Stands for a Java reference that may be null. */
  datatype Option<T> = None | Some(value: T)

  // ---------------------------------------------------------------------------
  // Positional insertion and removal
  // ---------------------------------------------------------------------------

  /** `s` with `t` inserted so that it becomes the element at index `i`; the
      elements from `i` on move one place to the right. */
  function InsertAt(s: seq<Track>, i: nat, t: Track): (r: seq<Track>)
    requires i <= |s|
    ensures |r| == |s| + 1 && r[i] == t
    ensures forall k :: 0 <= k < i ==> r[k] == s[k]
    ensures forall k :: i < k < |r| ==> r[k] == s[k - 1]
  {
    s[..i] + [t] + s[i..]
  }

  /** `s` with the element at index `j` removed; the elements after `j` move
      one place to the left and keep their order. */
  function Without(s: seq<Track>, j: nat): (r: seq<Track>)
    requires j < |s|
    ensures |r| == |s| - 1
    ensures forall k :: 0 <= k < j ==> r[k] == s[k]
    ensures forall k :: j <= k < |r| ==> r[k] == s[k + 1]
  {
    s[..j] + s[j + 1..]
  }

  /** Removing what was just inserted gives the list back. */
  lemma WithoutInsertAt(s: seq<Track>, i: nat, t: Track)
    requires i <= |s|
    ensures Without(InsertAt(s, i, t), i) == s
  {
    var r := Without(InsertAt(s, i, t), i);
    assert forall k :: 0 <= k < |s| ==> r[k] == s[k];
  }

  /** Re-inserting what was just removed, at the same place, gives the list back. */
  lemma InsertAtWithout(s: seq<Track>, j: nat)
    requires j < |s|
    ensures InsertAt(Without(s, j), j, s[j]) == s
  {
    var r := InsertAt(Without(s, j), j, s[j]);
    assert forall k :: 0 <= k < |s| ==> r[k] == s[k];
  }

  /** Insertion adds exactly the inserted track to the multiset of tracks. */
  lemma MultisetInsertAt(s: seq<Track>, i: nat, t: Track)
    requires i <= |s|
    ensures multiset(InsertAt(s, i, t)) == multiset(s) + multiset{t}
  {
    assert s == s[..i] + s[i..];
  }

  /** Removal takes exactly the removed track out of the multiset of tracks. */
  lemma MultisetWithout(s: seq<Track>, j: nat)
    requires j < |s|
    ensures multiset(Without(s, j)) + multiset{s[j]} == multiset(s)
  {
    assert s == s[..j] + [s[j]] + s[j + 1..];
  }

  // ---------------------------------------------------------------------------
  // Total duration
  // ---------------------------------------------------------------------------

  /** The sum of the durations of the tracks of `s`; 0 for the empty list. */
  function Duration(s: seq<Track>): nat
  {
    if s == [] then 0 else Duration(s[..|s| - 1]) + s[|s| - 1].duration
  }

  /** The total duration of a concatenation is the sum of the totals. */
  lemma {:induction false} DurationAppend(a: seq<Track>, b: seq<Track>)
    ensures Duration(a + b) == Duration(a) + Duration(b)
    decreases |b|
  {
    if b == [] {
      assert a + b == a;
    } else {
      var b' := b[..|b| - 1];
      assert (a + b)[..|a + b| - 1] == a + b';
      DurationAppend(a, b');
    }
  }

  /** Inserting a track adds its duration to the total. */
  lemma {:induction false} DurationInsertAt(s: seq<Track>, i: nat, t: Track)
    requires i <= |s|
    ensures Duration(InsertAt(s, i, t)) == Duration(s) + t.duration
  {
    assert InsertAt(s, i, t) == (s[..i] + [t]) + s[i..];
    DurationAppend(s[..i] + [t], s[i..]);
    assert (s[..i] + [t])[..i] == s[..i];
    DurationAppend(s[..i], s[i..]);
    assert s[..i] + s[i..] == s;
  }

  /** Removing a track takes its duration off the total. */
  lemma DurationWithout(s: seq<Track>, j: nat)
    requires j < |s|
    ensures Duration(Without(s, j)) + s[j].duration == Duration(s)
  {
    InsertAtWithout(s, j);
    DurationInsertAt(Without(s, j), j, s[j]);
  }

  /** Two lists holding the same tracks, in any order, have the same total
      duration: reordering a play list does not change its length in seconds. */
  lemma {:induction false} DurationPermutation(a: seq<Track>, b: seq<Track>)
    requires multiset(a) == multiset(b)
    ensures Duration(a) == Duration(b)
    decreases |a|
  {
    if a != [] {
      var x := a[|a| - 1];
      var a' := a[..|a| - 1];
      assert a == a' + [x];
      assert multiset(a) == multiset(a') + multiset{x};
      assert x in multiset(b);
      var j :| 0 <= j < |b| && b[j] == x;
      MultisetWithout(b, j);
      assert multiset(a') == multiset(a) - multiset{x};
      assert multiset(Without(b, j)) == multiset(b) - multiset{x};
      DurationPermutation(a', Without(b, j));
      DurationWithout(b, j);
    } else {
      assert |b| == |multiset(b)| == 0;
    }
  }

  // ---------------------------------------------------------------------------
  // Search by title
  // ---------------------------------------------------------------------------

  /** The lowest index of a track titled `title`, or -1 when there is none. */
  function TitleIndex(s: seq<Track>, title: string): (r: int)
    ensures -1 <= r < |s|
    ensures 0 <= r ==> s[r].title == title
    ensures forall k :: 0 <= k < |s| && (r < 0 || k < r) ==> s[k].title != title
  {
    if s == [] then -1
    else if s[0].title == title then 0
    else
      var r := TitleIndex(s[1..], title);
      if r < 0 then -1 else r + 1
  }

  /** The number of tracks of `s` titled `title`. */
  function Titled(s: seq<Track>, title: string): nat
  {
    if s == [] then 0
    else Titled(s[..|s| - 1], title) + (if s[|s| - 1].title == title then 1 else 0)
  }

  /** There is a track titled `title` exactly when it is counted. */
  lemma {:induction false} TitledPositive(s: seq<Track>, title: string)
    ensures Titled(s, title) > 0 <==> TitleIndex(s, title) >= 0
    decreases |s|
  {
    if s != [] {
      var s' := s[..|s| - 1];
      TitledPositive(s', title);
      if TitleIndex(s', title) >= 0 {
        var r := TitleIndex(s', title);
        assert s[r] == s'[r];
      }
      if s[|s| - 1].title != title && TitleIndex(s, title) >= 0 {
        var r := TitleIndex(s, title);
        assert s'[r] == s[r];
      }
    }
  }

  /** Removing one track lowers the count of its title by one and leaves the
      counts of all other titles as they were. */
  lemma {:induction false} TitledWithout(s: seq<Track>, j: nat, title: string)
    requires j < |s|
    ensures Titled(Without(s, j), title)
         == Titled(s, title) - (if s[j].title == title then 1 else 0)
    decreases |s|
  {
    var n := |s|;
    var w := Without(s, j);
    if j == n - 1 {
      assert w == s[..n - 1];
    } else {
      var s' := s[..n - 1];
      TitledWithout(s', j, title);
      assert w[..|w| - 1] == Without(s', j);
      assert w[|w| - 1] == s[n - 1];
    }
  }

  /** The list after removing the first track titled `title`; the list itself
      when no track has that title. */
  function WithoutFirstTitled(s: seq<Track>, title: string): seq<Track>
  {
    var j := TitleIndex(s, title);
    if j < 0 then s else Without(s, j)
  }

  /** Removing by title takes out exactly one track with that title when there
      is one (later tracks with the same title stay), and nothing otherwise. */
  lemma WithoutFirstTitledCount(s: seq<Track>, title: string)
    ensures Titled(WithoutFirstTitled(s, title), title)
         == if Titled(s, title) == 0 then 0 else Titled(s, title) - 1
    ensures |WithoutFirstTitled(s, title)|
         == if Titled(s, title) == 0 then |s| else |s| - 1
  {
    TitledPositive(s, title);
    var j := TitleIndex(s, title);
    if j >= 0 {
      TitledWithout(s, j, title);
    }
  }

  // ---------------------------------------------------------------------------
  // Minimum duration and sortedness
  // ---------------------------------------------------------------------------

  /** `m` is the index of the first track of shortest duration among the
      tracks of `s` at indices `start` and above. */
  ghost predicate IsFirstMin(s: seq<Track>, start: int, m: int)
  {
    && 0 <= start <= m < |s|
    && (forall k :: start <= k < |s| ==> s[m].duration <= s[k].duration)
    && (forall k :: start <= k < m ==> s[m].duration < s[k].duration)
  }

  /** The index of the first shortest track in `s[start..]`. */
  function FirstMinIndex(s: seq<Track>, start: nat): (m: nat)
    requires start < |s|
    ensures IsFirstMin(s, start, m)
    decreases |s| - start
  {
    if start == |s| - 1 then start
    else
      var m := FirstMinIndex(s, start + 1);
      if s[start].duration <= s[m].duration then start else m
  }

  /** The first shortest track is determined uniquely. */
  lemma FirstMinUnique(s: seq<Track>, start: nat, m: int)
    requires IsFirstMin(s, start, m)
    ensures m == FirstMinIndex(s, start)
  {
  }

  /** Tracks in non-decreasing order of duration. */
  ghost predicate SortedByDuration(s: seq<Track>)
  {
    forall p, q :: 0 <= p < q < |s| ==> s[p].duration <= s[q].duration
  }

  /** In a sorted list the first shortest track from `i` on is the one at `i`. */
  lemma SortedFirstMin(s: seq<Track>, i: nat)
    requires SortedByDuration(s) && i < |s|
    ensures FirstMinIndex(s, i) == i
  {
    FirstMinUnique(s, i, i);
  }

  /** The first `i` tracks are in place: each of them is no longer than any
      track after it. */
  ghost predicate SortedBelow(s: seq<Track>, i: int)
  {
    forall p, q :: 0 <= p < i && p < q < |s| ==> s[p].duration <= s[q].duration
  }

  /** `s` with the tracks at `i` and `j` exchanged. */
  function Swap(s: seq<Track>, i: nat, j: nat): (r: seq<Track>)
    requires i < |s| && j < |s|
    ensures |r| == |s| && r[i] == s[j] && r[j] == s[i]
    ensures forall k :: 0 <= k < |s| && k != i && k != j ==> r[k] == s[k]
    ensures multiset(r) == multiset(s)
  {
    s[i := s[j]][j := s[i]]
  }

  /** One step of selection sort: exchanging the track at `i` with the first
      shortest track from `i` on puts one more track in place. On a sorted
      list the step changes nothing. */
  lemma SelectionStep(s: seq<Track>, i: nat)
    requires i < |s| && SortedBelow(s, i)
    ensures SortedBelow(Swap(s, i, FirstMinIndex(s, i)), i + 1)
    ensures SortedByDuration(s) ==> Swap(s, i, FirstMinIndex(s, i)) == s
  {
    var m := FirstMinIndex(s, i);
    var r := Swap(s, i, m);
    forall p, q | 0 <= p < i + 1 && p < q < |r|
      ensures r[p].duration <= r[q].duration
    {
      if p == i {
        assert r[q] == s[q] || r[q] == s[i];
      } else {
        assert r[p] == s[p];
        assert r[q] == s[q] || r[q] == s[i] || r[q] == s[m];
      }
    }
    if SortedByDuration(s) {
      SortedFirstMin(s, i);
      assert r == s;
    }
  }

  // ---------------------------------------------------------------------------
  // The examples of the documentation comments
  // ---------------------------------------------------------------------------

  /** Tracks with the durations 7, 1, 6, 7, 5, 8, 7 (titles "a" to "g"). */
  function SevenTracks(): (s: seq<Track>)
    ensures |s| == 7
  {
    [Track("a", 7), Track("b", 1), Track("c", 6), Track("d", 7),
     Track("e", 5), Track("f", 8), Track("g", 7)]
  }

  /** With durations 7, 1, 6, 7, 5, 8, 7 the shortest track from index 2 on is
      at index 4, and the total duration is 41 seconds. */
  lemma SevenTracksExample()
    ensures FirstMinIndex(SevenTracks(), 2) == 4
    ensures Duration(SevenTracks()) == 41
  {
    var s := SevenTracks();
    assert IsFirstMin(s, 2, 4);
    assert Duration(s[..1]) == 7 by { assert s[..1][..0] == []; }
    assert Duration(s[..2]) == 8 by { assert s[..2][..1] == s[..1]; }
    assert Duration(s[..3]) == 14 by { assert s[..3][..2] == s[..2]; }
    assert Duration(s[..4]) == 21 by { assert s[..4][..3] == s[..3]; }
    assert Duration(s[..5]) == 26 by { assert s[..5][..4] == s[..4]; }
    assert Duration(s[..6]) == 34 by { assert s[..6][..5] == s[..5]; }
    assert s[..7] == s;
    FirstMinUnique(s, 2, 4);
  }

  /** Inserting t4 at index 1 of (t5, t3, t1) gives (t5, t4, t3, t1). */
  lemma InsertExample(t5: Track, t4: Track, t3: Track, t1: Track)
    ensures InsertAt([t5, t3, t1], 1, t4) == [t5, t4, t3, t1]
    ensures InsertAt([], 0, t3) == [t3]
  {
  }
}

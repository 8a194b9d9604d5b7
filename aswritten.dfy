/** The bodies of PlayList.java that do not do what their documentation
    comments say, modelled as they are written, over the whole Java state: the
    buffer's slots (None stands for null) and the size field. Each defect is
    exhibited on a concrete input; the class PlayLists.PlayList implements the
    documented behaviour instead. Loops are written as tail-recursive
    functions that follow the Java loop step by step. */
module AsWritten {
  import opened TrackLists

  /** A Java PlayList: `slots` is the array (its length is maxSize) and `size`
      the size field. */
  datatype State = State(slots: seq<Option<Track>>, size: int)

  predicate Wf(s: State)
  {
    0 <= s.size <= |s.slots|
  }

  /** Every slot below `size` holds a track, so reading one does not throw a
      NullPointerException. */
  predicate Occupied(s: State)
    requires Wf(s)
  {
    forall k :: 0 <= k < s.size ==> s.slots[k].Some?
  }

  /** What the list shows: the slots below `size`. */
  function View(s: State): seq<Option<Track>>
    requires Wf(s)
  {
    s.slots[..s.size]
  }

  /** The tracks of `s`, as non-null slots. */
  function Lift(s: seq<Track>): (r: seq<Option<Track>>)
    ensures |r| == |s|
    ensures forall k :: 0 <= k < |s| ==> r[k] == Some(s[k])
  {
    seq(|s|, k requires 0 <= k < |s| => Some(s[k]))
  }

  /** A Java play list of capacity `maxSize` holding `s`, its unused slots null. */
  function Of(s: seq<Track>, maxSize: nat): (r: State)
    requires |s| <= maxSize
    ensures Wf(r) && Occupied(r) && View(r) == Lift(s) && |r.slots| == maxSize
  {
    State(Lift(s) + seq(maxSize - |s|, _ => None), |s|)
  }

  // ---------------------------------------------------------------------------
  // add(int, Track), PlayList.java:92-104
  // ---------------------------------------------------------------------------

  /** The loop of PlayList.java:97-101: for each k below `end`, slot k gets the
      carried track and its previous content is carried on. */
  function CarryRight(a: seq<Option<Track>>, k: nat, end: int, last: Option<Track>): (r: seq<Option<Track>>)
    requires end <= |a|
    ensures |r| == |a|
    ensures forall j :: 0 <= j < k && j < |a| ==> r[j] == a[j]
    ensures k < end ==> r[k] == last
    ensures forall j :: k < j < end ==> r[j] == a[j - 1]
    ensures forall j :: end <= j < |a| && k <= j ==> r[j] == a[j]
    decreases end - k
  {
    if k < end then CarryRight(a[k := last], k + 1, end, a[k]) else a
  }

  /** add(i, track) as written: it refuses i == size and never increments
      size. */
  function AddAt(s: State, i: int, t: Track): (r: (State, bool))
    requires Wf(s)
    ensures r.1 <==> 0 <= i < s.size < |s.slots|
    ensures r.0.size == s.size && |r.0.slots| == |s.slots|
  {
    if i < 0 || i >= s.size || s.size == |s.slots| then (s, false)
    else (State(CarryRight(s.slots[i := Some(t)], i + 1, s.size + 1, s.slots[i]), s.size), true)
  }

  /** On (t5, t3, t1) with room for four, add(1, t4) reports success but the
      list shows (t5, t4, t3): t1 was shifted out of sight because size was
      not incremented. The documented result is (t5, t4, t3, t1). */
  lemma AddAtLosesLastTrack()
    ensures var t5, t4, t3, t1 := Track("t5", 5), Track("t4", 4), Track("t3", 3), Track("t1", 1);
            var (r, ok) := AddAt(Of([t5, t3, t1], 4), 1, t4);
            && ok && Wf(r)
            && View(r) == Lift([t5, t4, t3])
            && View(r) != Lift(InsertAt([t5, t3, t1], 1, t4))
  {
    var t5, t4, t3, t1 := Track("t5", 5), Track("t4", 4), Track("t3", 3), Track("t1", 1);
    var s := Of([t5, t3, t1], 4);
    assert s.slots == [Some(t5), Some(t3), Some(t1), None];
    var a := s.slots[1 := Some(t4)];
    assert CarryRight(a, 2, 4, Some(t3)) == [Some(t5), Some(t4), Some(t3), Some(t1)] by {
      assert CarryRight(a, 2, 4, Some(t3)) == CarryRight(a[2 := Some(t3)], 3, 4, Some(t1));
      assert CarryRight(a[2 := Some(t3)], 3, 4, Some(t1))
          == CarryRight(a[2 := Some(t3)][3 := Some(t1)], 4, 4, None);
    }
    assert |Lift(InsertAt([t5, t3, t1], 1, t4))| == 4;
  }

  /** On the empty list, add(0, t3) is refused, where the documentation says
      the list becomes (t3). */
  lemma AddAtRefusesEnd()
    ensures AddAt(Of([], 1), 0, Track("t3", 3)).1 == false
  {
  }

  // ---------------------------------------------------------------------------
  // remove(int), PlayList.java:109-117
  // ---------------------------------------------------------------------------

  /** The loop of PlayList.java:111-113: every slot x from `x` below `end` gets
      the track of slot i + 1 (where slot x + 1 was meant). */
  function CopyNext(a: seq<Option<Track>>, i: nat, x: nat, end: int): (r: seq<Option<Track>>)
    requires i <= x && end < |a|
    ensures |r| == |a|
    ensures forall j :: 0 <= j < x && j < |a| ==> r[j] == a[j]
    ensures forall j :: x <= j < end ==> r[j] == a[i + 1]
    ensures forall j :: end <= j < |a| && x <= j ==> r[j] == a[j]
    decreases end - x
  {
    if x < end then
      assert a[x := a[i + 1]][i + 1] == a[i + 1];
      CopyNext(a[x := a[i + 1]], i, x + 1, end)
    else a
  }

  /** remove(i) as written: it refuses i == 0, accepts i up to maxSize - 1,
      copies slot i + 1 everywhere, clears slot size - 1 and never decrements
      size. */
  function RemoveAt(s: State, i: int): (r: State)
    requires Wf(s)
    ensures Wf(r) && r.size == s.size && |r.slots| == |s.slots|
  {
    if s.size != 0 && i > 0 && i < |s.slots| then
      State(CopyNext(s.slots, i, i, s.size - 1)[s.size - 1 := None], s.size)
    else s
  }

  /** remove(1) on (a, b, c, d) leaves (a, c, c, null) in place of the
      documented (a, c, d); remove(0) on (a, b) does nothing at all. */
  lemma RemoveAtCopiesWrongSlot()
    ensures var a, b, c, d := Track("a", 1), Track("b", 2), Track("c", 3), Track("d", 4);
            && View(RemoveAt(Of([a, b, c, d], 4), 1)) == [Some(a), Some(c), Some(c), None]
            && Without([a, b, c, d], 1) == [a, c, d]
    ensures var a, b := Track("a", 1), Track("b", 2);
            RemoveAt(Of([a, b], 2), 0) == Of([a, b], 2)
  {
    var a, b, c, d := Track("a", 1), Track("b", 2), Track("c", 3), Track("d", 4);
    var s := Of([a, b, c, d], 4);
    assert s.slots == [Some(a), Some(b), Some(c), Some(d)];
    assert CopyNext(s.slots, 1, 1, 3) == [Some(a), Some(c), Some(c), Some(d)] by {
      assert CopyNext(s.slots, 1, 1, 3) == CopyNext(s.slots[1 := Some(c)], 1, 2, 3);
      assert CopyNext(s.slots[1 := Some(c)], 1, 2, 3)
          == CopyNext(s.slots[1 := Some(c)][2 := Some(c)], 1, 3, 3);
    }
  }

  // ---------------------------------------------------------------------------
  // remove(String), PlayList.java:122-134
  // ---------------------------------------------------------------------------

  /** The inner loop of PlayList.java:129-130: slot k gets slot k + 1 for each
      k from `k` below `end`. */
  function ShiftLeft(a: seq<Option<Track>>, k: nat, end: int): (r: seq<Option<Track>>)
    requires end < |a|
    ensures |r| == |a|
    ensures forall j :: 0 <= j < k && j < |a| ==> r[j] == a[j]
    ensures forall j :: k <= j < end ==> r[j] == a[j + 1]
    ensures forall j :: end <= j < |a| && k <= j ==> r[j] == a[j]
    decreases end - k
  {
    if k < end then ShiftLeft(a[k := a[k + 1]], k + 1, end) else a
  }

  /** The outer loop of PlayList.java:123-133, from index i on. After a
      removal it goes on scanning with the shrunken size, so it removes every
      later match that it does not skip over. */
  function ScanTitle(s: State, i: nat, title: string): (r: State)
    requires Wf(s) && Occupied(s)
    ensures Wf(r) && r.size <= s.size
    decreases s.size - i
  {
    if i >= s.size then s
    else if s.slots[i].value.title == title && i == s.size - 1 then
      ScanTitle(State(s.slots[i := None], s.size - 1), i + 1, title)
    else if s.slots[i].value.title == title then
      ScanTitle(State(ShiftLeft(s.slots, i, s.size - 1), s.size - 1), i + 1, title)
    else
      ScanTitle(s, i + 1, title)
  }

  /** remove(title) as written. */
  function RemoveTitle(s: State, title: string): (r: State)
    requires Wf(s) && Occupied(s)
    ensures Wf(r) && r.size <= s.size
  {
    ScanTitle(s, 0, title)
  }

  /** remove("A") on (A1, B, A2) leaves (B): both tracks titled "A" go, where
      the documentation removes only the first and leaves (B, A2). */
  lemma RemoveTitleRemovesTwo()
    ensures var a1, b, a2 := Track("A", 1), Track("B", 2), Track("A", 3);
            && View(RemoveTitle(Of([a1, b, a2], 3), "A")) == [Some(b)]
            && WithoutFirstTitled([a1, b, a2], "A") == [b, a2]
  {
    var a1, b, a2 := Track("A", 1), Track("B", 2), Track("A", 3);
    var s := Of([a1, b, a2], 3);
    assert s.slots == [Some(a1), Some(b), Some(a2)];
    var s1 := State(ShiftLeft(s.slots, 0, 2), 2);
    assert s1.slots == [Some(b), Some(a2), Some(a2)];
    assert ScanTitle(s, 0, "A") == ScanTitle(s1, 1, "A");
    var s2 := State(s1.slots[1 := None], 1);
    assert ScanTitle(s1, 1, "A") == ScanTitle(s2, 2, "A");
    assert TitleIndex([a1, b, a2], "A") == 0;
    assert Without([a1, b, a2], 0) == [b, a2];
  }

  // ---------------------------------------------------------------------------
  // removeFirst(), PlayList.java:137-143
  // ---------------------------------------------------------------------------

  /** removeFirst() as written: it clears slot 0 and decrements size without
      moving the other tracks. */
  function RemoveFirst(s: State): (r: State)
    requires Wf(s)
    ensures Wf(r) && |r.slots| == |s.slots|
    ensures r.size == if s.size == 0 then 0 else s.size - 1
    ensures s.size != 0 ==> r.slots[0] == None && r.slots[1..] == s.slots[1..]
  {
    if s.size != 0 then State(s.slots[0 := None], s.size - 1) else s
  }

  /** removeFirst() on (a, b) leaves a list showing (null) instead of (b). */
  lemma RemoveFirstLeavesNull()
    ensures var a, b := Track("a", 1), Track("b", 2);
            && View(RemoveFirst(Of([a, b], 2))) == [None]
            && Without([a, b], 0) == [b]
  {
    var a, b := Track("a", 1), Track("b", 2);
    assert Of([a, b], 2).slots == [Some(a), Some(b)];
  }

  // ---------------------------------------------------------------------------
  // add(PlayList), PlayList.java:148-158
  // ---------------------------------------------------------------------------

  /** other.getTrack(index), PlayList.java:27-33. */
  function GetTrack(s: State, index: int): (r: Option<Track>)
    requires Wf(s)
    ensures 0 <= index < s.size ==> r == View(s)[index]
    ensures !(0 <= index < s.size) ==> r == None
  {
    if 0 <= index < s.size then s.slots[index] else None
  }

  /** The loop of PlayList.java:151-155: with k declared inside the loop, every
      slot from `i` below `end` gets the same track. */
  function FillWith(a: seq<Option<Track>>, i: nat, end: int, t: Option<Track>): (r: seq<Option<Track>>)
    requires end <= |a|
    ensures |r| == |a|
    ensures forall j :: 0 <= j < i && j < |a| ==> r[j] == a[j]
    ensures forall j :: i <= j < end ==> r[j] == t
    ensures forall j :: end <= j < |a| && i <= j ==> r[j] == a[j]
    decreases end - i
  {
    if i < end then FillWith(a[i := t], i + 1, end, t) else a
  }

  /** add(other) as written. */
  function AddAll(s: State, other: State): (r: State)
    requires Wf(s) && Wf(other)
    ensures Wf(r) && |r.slots| == |s.slots|
    ensures r.size == if s.size + other.size <= |s.slots| then s.size + other.size else s.size
  {
    var total := s.size + other.size;
    if total <= |s.slots| then State(FillWith(s.slots, s.size, total, GetTrack(other, 0)), total)
    else s
  }

  /** Adding (x, y) to (a) with room for three gives (a, x, x) instead of
      (a, x, y). */
  lemma AddAllRepeatsFirst()
    ensures var a, x, y := Track("a", 1), Track("x", 2), Track("y", 3);
            View(AddAll(Of([a], 3), Of([x, y], 2))) == [Some(a), Some(x), Some(x)]
  {
    var a, x, y := Track("a", 1), Track("x", 2), Track("y", 3);
    var s := Of([a], 3);
    assert s.slots == [Some(a), None, None];
    assert Of([x, y], 2).slots[0] == Some(x);
    assert FillWith(s.slots, 1, 3, Some(x)) == [Some(a), Some(x), Some(x)] by {
      assert FillWith(s.slots, 1, 3, Some(x)) == FillWith(s.slots[1 := Some(x)], 2, 3, Some(x));
      assert FillWith(s.slots[1 := Some(x)], 2, 3, Some(x))
          == FillWith(s.slots[1 := Some(x)][2 := Some(x)], 3, 3, Some(x));
    }
  }

  // ---------------------------------------------------------------------------
  // minIndex(int) and titleOfShortestTrack(), PlayList.java:166-186
  // ---------------------------------------------------------------------------

  /** The loop of PlayList.java:171-176 from index i on, with the current
      minimum and its index. */
  function MinLoop(s: State, i: nat, min: int, minI: int): (r: int)
    requires Wf(s) && Occupied(s)
    ensures r == minI || i <= r < s.size
    decreases s.size - i
  {
    if i < s.size then
      if s.slots[i].value.duration < min then MinLoop(s, i + 1, s.slots[i].value.duration, i)
      else MinLoop(s, i + 1, min, minI)
    else minI
  }

  /** minIndex(start) as written: the search starts from the sentinel minimum
      100 at index 0. */
  function MinIndex(s: State, start: int): (r: int)
    requires Wf(s) && Occupied(s)
    ensures !(0 <= start < s.size) ==> r == -1
    ensures 0 <= start < s.size ==> 0 <= r < s.size
  {
    if start < 0 || start > s.size - 1 then -1 else MinLoop(s, start, 100, 0)
  }

  /** Whenever no duration from index i on is below 100, the loop returns the
      sentinel index 0. */
  lemma {:induction false} MinLoopKeepsSentinel(s: State, i: nat)
    requires Wf(s) && Occupied(s)
    requires forall k :: i <= k < s.size ==> s.slots[k].value.duration >= 100
    ensures MinLoop(s, i, 100, 0) == 0
    decreases s.size - i
  {
    if i < s.size {
      MinLoopKeepsSentinel(s, i + 1);
    }
  }

  /** With durations 7 and 150, minIndex(1) returns 0, an index below the
      start, where the documented answer is 1. */
  lemma MinIndexLeavesRange()
    ensures var ts := [Track("a", 7), Track("b", 150)];
            && MinIndex(Of(ts, 2), 1) == 0
            && FirstMinIndex(ts, 1) == 1
  {
    var ts := [Track("a", 7), Track("b", 150)];
    var s := Of(ts, 2);
    assert s.slots == [Some(ts[0]), Some(ts[1])];
    MinLoopKeepsSentinel(s, 1);
  }

  /** titleOfShortestTrack() as written. */
  function TitleOfShortestTrack(s: State): (r: Option<string>)
    requires Wf(s) && Occupied(s)
    ensures r.Some? <==> s.size > 0
  {
    if s.size == 0 then None
    else
      // PlayList.java:184 computes minIndex(0) once more and drops it.
      Some(s.slots[MinIndex(s, 0)].value.title)
  }

  /** With durations 200 and 150 the title of the first track is returned,
      not that of the shortest one. */
  lemma ShortestTitleWrong()
    ensures var ts := [Track("long", 200), Track("short", 150)];
            && TitleOfShortestTrack(Of(ts, 2)) == Some("long")
            && ts[FirstMinIndex(ts, 0)].title == "short"
  {
    var ts := [Track("long", 200), Track("short", 150)];
    var s := Of(ts, 2);
    assert s.slots == [Some(ts[0]), Some(ts[1])];
    MinLoopKeepsSentinel(s, 0);
    assert IsFirstMin(ts, 0, 1);
    FirstMinUnique(ts, 0, 1);
  }

  // ---------------------------------------------------------------------------
  // sortedInPlace(), PlayList.java:192-201
  // ---------------------------------------------------------------------------

  /** How a call ends: normally, or with a NullPointerException; either way
      with the state the list is left in (a caller that catches the exception
      sees the writes made before it). */
  datatype Outcome = Returns(state: State) | NullPointer(state: State)

  /** The loop of PlayList.java:194-198 from iteration i on. Its only effect on
      the list is remove(minIndex(0)); the local array it fills is dropped.
      minIndex(0) reads the duration of every slot below size, and throws on a
      null one. */
  function SortLoop(s: State, i: nat): (r: Outcome)
    requires Wf(s)
    ensures Wf(r.state) && r.state.size == s.size && |r.state.slots| == |s.slots|
    decreases s.size - i
  {
    if i >= s.size then Returns(s)
    else if !Occupied(s) then NullPointer(s)
    else SortLoop(RemoveAt(s, MinIndex(s, 0)), i + 1)
  }

  /** sortedInPlace() as written. */
  function SortedInPlace(s: State): (r: Outcome)
    requires Wf(s)
    ensures Wf(r.state) && r.state.size == s.size
  {
    SortLoop(s, 0)
  }

  /** With durations 200 and 150 the list comes back unchanged and so
      unsorted; with durations 2 and 1 the method throws, after the first
      remove(1) has left slot 1 null. */
  lemma SortedInPlaceFails()
    ensures var ts := [Track("a", 200), Track("b", 150)];
            && SortedInPlace(Of(ts, 2)) == Returns(Of(ts, 2))
            && !SortedByDuration(ts)
    ensures SortedInPlace(Of([Track("a", 2), Track("b", 1)], 2))
         == NullPointer(State([Some(Track("a", 2)), None], 2))
  {
    var ts := [Track("a", 200), Track("b", 150)];
    var s := Of(ts, 2);
    assert s.slots == [Some(ts[0]), Some(ts[1])];
    MinLoopKeepsSentinel(s, 0);
    assert SortLoop(s, 0) == SortLoop(s, 1) == SortLoop(s, 2);
    var us := [Track("a", 2), Track("b", 1)];
    var u := Of(us, 2);
    assert u.slots == [Some(us[0]), Some(us[1])];
    assert MinIndex(u, 0) == 1 by {
      assert MinLoop(u, 0, 100, 0) == MinLoop(u, 1, 2, 0) == MinLoop(u, 2, 1, 1);
    }
    var u1 := RemoveAt(u, 1);
    assert CopyNext(u.slots, 1, 1, 1) == u.slots;
    assert u1.slots == [Some(us[0]), None] && u1.size == 2;
    assert u1.slots[1] == None;
    assert !Occupied(u1);
  }
}

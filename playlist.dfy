/** The play list: a list of tracks of bounded capacity kept in a fixed array.
    Only the prefix `tracks[..size]` holds tracks of the list; the slots from
    `size` on are unused. Every method is specified against `Elems()`, that
    prefix as a sequence.

    Where a Java body (PlayList.java) does something other than what its
    documentation comment says, the methods here follow the documentation and
    a comment names the diverging Java line; module AsWritten models those
    bodies as they are. */
module PlayLists {
  import opened TrackLists

  class PlayList {
    /** The capacity, fixed at construction. */
    const maxSize: nat
    /** The backing buffer; it is allocated once and never replaced. */
    const tracks: array<Track>
    /** The number of tracks in the list. */
    var size: nat

    /** The object invariant: the buffer has `maxSize` slots and `size` of
        them, at the front, are occupied. */
    ghost predicate Valid()
      reads this
    {
      tracks.Length == maxSize && size <= maxSize
    }

    /** The tracks of the list, in order. */
    ghost function Elems(): seq<Track>
      reads this, tracks
      requires Valid()
    {
      tracks[..size]
    }

    /** An empty list with room for `maxSize` tracks. (Java leaves the slots
        null; here they hold Track's default value and are never read.) */
    constructor (maxSize: nat)
      ensures Valid() && fresh(tracks)
      ensures this.maxSize == maxSize && Elems() == []
    {
      this.maxSize := maxSize;
      tracks := new Track[maxSize];
      size := 0;
    }

    /** The capacity of the list. */
    method GetMaxSize() returns (r: nat)
      requires Valid()
      ensures r == tracks.Length
    {
      return maxSize;
    }

    /** The number of tracks in the list. */
    method GetSize() returns (r: nat)
      requires Valid()
      ensures r == |Elems()|
    {
      return size;
    }

    /** The track at `index`, or None (Java: null) when `index` is not the
        index of a track of the list. */
    method GetTrack(index: int) returns (r: Option<Track>)
      requires Valid()
      ensures 0 <= index < |Elems()| ==> r == Some(Elems()[index])
      ensures !(0 <= index < |Elems()|) ==> r == None
    {
      if index >= 0 && index < size {
        return Some(tracks[index]);
      } else {
        return None;
      }
    }

    /** Appends `track`. A full list is left as it is and false is returned. */
    method Add(track: Track) returns (ok: bool)
      requires Valid()
      modifies this, tracks
      ensures Valid()
      ensures ok <==> old(size) < maxSize
      ensures ok ==> Elems() == old(Elems()) + [track]
      ensures !ok ==> unchanged(this, tracks)
    {
      if size < maxSize {
        tracks[size] := track;
        size := size + 1;
        return true;
      }
      return false;
    }

    /** Inserts `track` so that it becomes the track at index `i`, moving the
        tracks from `i` on one place to the right. When `i` is negative or
        greater than the size, or the list is full, the list is left as it is
        and false is returned. */
    method AddAt(i: int, track: Track) returns (ok: bool)
      requires Valid()
      modifies this, tracks
      ensures Valid()
      ensures ok <==> 0 <= i <= old(size) < maxSize
      ensures ok ==> Elems() == InsertAt(old(Elems()), i, track)
      ensures !ok ==> unchanged(this, tracks)
    {
      // PlayList.java:93 tests `i >= size`, which also rejects i == size,
      // contrary to the documented add(0, t3) on the empty list.
      if i < 0 || i > size || size == maxSize {
        return false;
      }
      ghost var a := tracks[..];
      // The displaced track is carried one slot to the right at each step.
      var lastTrack := tracks[i];
      tracks[i] := track;
      for k := i + 1 to size + 1
        modifies tracks
        invariant forall j :: 0 <= j < i ==> tracks[j] == a[j]
        invariant tracks[i] == track
        invariant forall j :: i < j < k ==> tracks[j] == a[j - 1]
        invariant forall j :: k <= j < tracks.Length ==> tracks[j] == a[j]
        invariant lastTrack == a[k - 1]
      {
        var temp := tracks[k];
        tracks[k] := lastTrack;
        lastTrack := temp;
      }
      // PlayList.java:95-102 never increments size after the shift.
      size := size + 1;
      assert Elems() == InsertAt(a[..size - 1], i, track);
      return true;
    }

    /** Removes the track at index `j`, moving the later tracks one place to
        the left. This is the shift loop of PlayList.java:111-113 and 129-130,
        as the documentation describes it. */
    method RemoveSlot(j: nat)
      requires Valid() && j < size
      modifies this, tracks
      ensures Valid()
      ensures Elems() == Without(old(Elems()), j)
    {
      ghost var a := tracks[..];
      for x := j to size - 1
        modifies tracks
        invariant forall k :: 0 <= k < j ==> tracks[k] == a[k]
        invariant forall k :: j <= k < x ==> tracks[k] == a[k + 1]
        invariant forall k :: x <= k < tracks.Length ==> tracks[k] == a[k]
      {
        tracks[x] := tracks[x + 1];
      }
      size := size - 1;
      assert Elems() == Without(a[..size + 1], j);
    }

    /** Removes the last track; does nothing on the empty list. (Java also
        clears the vacated slot, which is outside the list either way.) */
    method RemoveLast()
      requires Valid()
      modifies this
      ensures Valid()
      ensures old(size) != 0 ==> Elems() == Without(old(Elems()), old(size) - 1)
      ensures old(size) == 0 ==> unchanged(this)
    {
      if size != 0 {
        size := size - 1;
      }
    }

    /** Removes the track at index `i`, moving the later tracks one place to
        the left. When `i` is not the index of a track (in particular when the
        list is empty) nothing changes. The documentation says -1 is returned
        then, but the Java method is void (PlayList.java:108-109). */
    method RemoveAt(i: int)
      requires Valid()
      modifies this, tracks
      ensures Valid()
      ensures 0 <= i < old(size) ==> Elems() == Without(old(Elems()), i)
      ensures !(0 <= i < old(size)) ==> unchanged(this, tracks)
    {
      // PlayList.java:110 tests `i > 0 && i < maxSize`: index 0 is refused and
      // indices in [size, maxSize) are let through. PlayList.java:112 copies
      // tracks[i + 1] where tracks[x + 1] is meant, and size is never
      // decremented.
      if size != 0 && 0 <= i < size {
        RemoveSlot(i);
      }
    }

    /** Removes the first track titled `title`, moving the later tracks one
        place to the left; nothing changes when no track has that title. */
    method RemoveTitle(title: string)
      requires Valid()
      modifies this, tracks
      ensures Valid()
      ensures Elems() == WithoutFirstTitled(old(Elems()), title)
      ensures TitleIndex(old(Elems()), title) < 0 ==> unchanged(this, tracks)
    {
      for i := 0 to size
        invariant size == old(size) && tracks[..] == old(tracks[..])
        invariant forall k :: 0 <= k < i ==> tracks[k].title != title
      {
        // PlayList.java:123-133 keeps scanning after a removal, so it can
        // remove several tracks; the documented behaviour stops at the first.
        if tracks[i].title == title && i == size - 1 {
          assert TitleIndex(Elems(), title) == i;
          size := size - 1;
          return;
        } else if tracks[i].title == title {
          assert TitleIndex(Elems(), title) == i;
          RemoveSlot(i);
          return;
        }
      }
    }

    /** Removes the first track, moving the others one place to the left; does
        nothing on the empty list. */
    method RemoveFirst()
      requires Valid()
      modifies this, tracks
      ensures Valid()
      ensures old(size) != 0 ==> Elems() == Without(old(Elems()), 0)
      ensures old(size) == 0 ==> unchanged(this, tracks)
    {
      // PlayList.java:139 clears slot 0 without moving the other tracks.
      if size != 0 {
        RemoveSlot(0);
      }
    }

    /** Appends all the tracks of `other`, in order, when they fit; otherwise
        nothing changes. `other` is not modified. Two play lists never share
        a buffer (each constructs its own), which is what the second
        precondition records; `other` may be this list itself. */
    method AddAll(other: PlayList)
      requires Valid() && other.Valid()
      requires other != this ==> other.tracks != tracks
      modifies this, tracks
      ensures Valid()
      ensures old(size + other.size) <= maxSize ==> Elems() == old(Elems()) + old(other.Elems())
      ensures old(size + other.size) > maxSize ==> unchanged(this, tracks)
      ensures other != this ==> unchanged(other, other.tracks)
    {
      var total := size + other.size;
      if total <= maxSize {
        ghost var a := tracks[..size];
        ghost var b := other.tracks[..other.size];
        // PlayList.java:152 declares k inside the loop, so every slot gets
        // other's first track; k belongs outside the loop.
        var k := 0;
        for i := size to total
          modifies tracks
          invariant k == i - size
          invariant forall j :: 0 <= j < size ==> tracks[j] == a[j]
          invariant forall j :: size <= j < i ==> tracks[j] == b[j - size]
          invariant forall j :: 0 <= j < other.size ==> other.tracks[j] == b[j]
        {
          tracks[i] := other.tracks[k];
          k := k + 1;
        }
        size := total;
        assert Elems() == a + b;
      }
    }

    /** The sum of the durations of the tracks, in seconds. */
    method TotalDuration() returns (seconds: nat)
      requires Valid()
      ensures seconds == Duration(Elems())
    {
      seconds := 0;
      for i := 0 to size
        invariant seconds == Duration(tracks[..i])
      {
        assert tracks[..i + 1][..i] == tracks[..i];
        seconds := seconds + tracks[i].duration;
      }
    }

    /** The index of the first track titled `title`, or -1 when there is none. */
    method IndexOf(title: string) returns (r: int)
      requires Valid()
      ensures r == TitleIndex(Elems(), title)
    {
      for i := 0 to size
        invariant forall k :: 0 <= k < i ==> tracks[k].title != title
      {
        if tracks[i].title == title {
          return i;
        }
      }
      return -1;
    }

    /** The index of the first shortest track at index `start` or later; -1
        when `start` is negative or not below the size. */
    method MinIndex(start: int) returns (r: int)
      requires Valid()
      ensures !(0 <= start < |Elems()|) ==> r == -1
      ensures 0 <= start < |Elems()| ==> r == FirstMinIndex(Elems(), start)
    {
      if start < 0 || start > size - 1 {
        return -1;
      }
      // PlayList.java:169-170 starts from min = 100 and minI = 0, so when no
      // duration from start on is below 100 it returns 0. The search starts
      // from the track at start instead.
      var min := tracks[start].duration;
      var minI := start;
      for i := start + 1 to size
        invariant start <= minI < i
        invariant min == tracks[minI].duration
        invariant forall k :: start <= k < i ==> min <= tracks[k].duration
        invariant forall k :: start <= k < minI ==> min < tracks[k].duration
      {
        if tracks[i].duration < min {
          min := tracks[i].duration;
          minI := i;
        }
      }
      FirstMinUnique(Elems(), start, minI);
      return minI;
    }

    /** The title of the first shortest track; None (Java: null) on the empty
        list. */
    method TitleOfShortestTrack() returns (r: Option<string>)
      requires Valid()
      ensures |Elems()| == 0 ==> r == None
      ensures |Elems()| > 0 ==> r == Some(Elems()[FirstMinIndex(Elems(), 0)].title)
    {
      if size == 0 {
        return None;
      }
      var minI := MinIndex(0);
      return Some(tracks[minI].title);
    }

    /** Sorts the list in place by non-decreasing duration: selection sort,
        swapping the track at each index with the first shortest track from
        there on. It is not stable. A list that is already sorted is left as
        it is. */
    method SortedInPlace()
      requires Valid()
      modifies tracks
      ensures Valid()
      ensures SortedByDuration(Elems())
      ensures multiset(Elems()) == multiset(old(Elems()))
      ensures SortedByDuration(old(Elems())) ==> Elems() == old(Elems())
    {
      // PlayList.java:193-198 fills a local array that is never written back,
      // and removes each minimum with remove(int), which refuses index 0.
      for i := 0 to size
        invariant SortedBelow(Elems(), i)
        invariant multiset(Elems()) == multiset(old(Elems()))
        invariant SortedByDuration(old(Elems())) ==> Elems() == old(Elems())
      {
        ghost var pre := Elems();
        var m := MinIndex(i);
        SelectionStep(pre, i);
        tracks[i], tracks[m] := tracks[m], tracks[i];
        assert Elems() == Swap(pre, i, m);
      }
    }
  }
}

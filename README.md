# PlayList — a bounded list of tracks, in Dafny

The repository is one Java class, `PlayList`. It is an ordered list of tracks
(a title and a duration in seconds) with a capacity fixed at construction. It
keeps its tracks in a preallocated array plus a `size` counter. The tracks of
the list are the array prefix `tracks[0..size)`.

The operations are:

- append, and insertion at an index with a right shift;
- removal of the last track, of the first track, of the track at an index,
  and of the first track with a given title, each with a left shift;
- all-or-nothing concatenation of another play list;
- the total duration, search by title, the index of the shortest track from
  a start index, and the title of the shortest track;
- an in-place sort by duration.

The model has three modules:

- `TrackLists` (tracklists.dfy) holds the `Track` value and the functions on
  `seq<Track>` that the methods are specified against. These are `InsertAt`,
  `Without`, `Duration`, `TitleIndex`, `WithoutFirstTitled`, `FirstMinIndex`
  and `SortedByDuration`. The module also proves the lemmas that relate them:
  round trips, multiset and total-duration bookkeeping, "exactly one match is
  removed", and one selection-sort step.
- `PlayLists` (playlist.dfy) holds the class `PlayList`. It has the Java
  fields: `maxSize`, the `tracks` array and `size`. `Valid()` is the object
  invariant `0 <= size <= maxSize == tracks.Length`. Every method is proved
  against the ghost view `Elems() == tracks[..size]`. Mutators update the
  array in place with the Java loops and carry loop invariants.
- `AsWritten` (aswritten.dfy) models the Java bodies that disagree with their
  own documentation comments, exactly as written. It works over the whole
  Java state: the array slots, with `None` for `null`, and the size field.
  Concrete lemmas show each disagreement (see "## Findings").

The class follows the documentation comments. Where a Java body does
something else, the Dafny method has a comment naming the Java line. The
written behaviour is kept in `AsWritten`.

Boundary choices:

- Insertion accepts `i == size`. The comment says "greater than the size" is
  refused, and its example inserts into the empty list. The code refuses
  `i == size`.
- `remove(int)` ignores any index outside `[0, size)`.
- The sort is selection sort by repeated first minimum, swapping in place.
  It is not stable. It is proved sorted and a permutation, and a list that is
  already sorted is left exactly as it is, so sorting twice is the same as
  sorting once.

## Model

| member | source | states |
|---|---|---|
| `PlayLists.PlayList.constructor` | PlayList.java:8-13 | the new list is empty, its capacity is `maxSize`, and its buffer is fresh |
| `PlayLists.PlayList.GetMaxSize` | PlayList.java:15-18 | returns the capacity, the length of the buffer |
| `PlayLists.PlayList.GetSize` | PlayList.java:20-24 | returns the number of tracks in the list |
| `PlayLists.PlayList.GetTrack` | PlayList.java:26-33 | returns the track at `index` for `0 <= index < size`, otherwise None (null) |
| `PlayLists.PlayList.Add` | PlayList.java:35-45 | a full list returns false and stays unchanged; otherwise it returns true and the track is appended after the old tracks; `0 <= size <= maxSize` is kept |
| `PlayLists.PlayList.AddAt` | PlayList.java:86-104 | returns true exactly when `0 <= i <= size < maxSize`, and then the list is the old one with `track` inserted at `i` and the later tracks shifted right; otherwise nothing changes |
| `PlayLists.PlayList.RemoveSlot` | PlayList.java:111-113 | the shared shift-left step: the track at `j` is removed and the later tracks keep their order |
| `PlayLists.PlayList.RemoveLast` | PlayList.java:60-64 | a non-empty list loses its last track; an empty one is unchanged |
| `PlayLists.PlayList.RemoveAt` | PlayList.java:106-117 | for `0 <= i < size` the track at `i` is removed and the later tracks shift left in order; for any other `i`, including on the empty list, nothing changes |
| `PlayLists.PlayList.RemoveTitle` | PlayList.java:119-134 | exactly the first track with the title is removed and the later tracks shift left; nothing changes when no track has the title |
| `PlayLists.PlayList.RemoveFirst` | PlayList.java:136-143 | a non-empty list loses its first track and the rest shift left in order; an empty one is unchanged |
| `PlayLists.PlayList.AddAll` | PlayList.java:145-158 | when the combined size fits, the list becomes the old list followed by the other's tracks; otherwise nothing changes; `other` is never modified, and it may be this list itself |
| `PlayLists.PlayList.TotalDuration` | PlayList.java:66-73 | returns the sum of the durations of the tracks (0 on the empty list); no state changes |
| `PlayLists.PlayList.IndexOf` | PlayList.java:75-84 | returns `TitleIndex` of the tracks: the lowest index with that title, or -1 when there is none |
| `PlayLists.PlayList.MinIndex` | PlayList.java:160-178 | returns -1 when `start < 0` or `start > size - 1`; otherwise returns the first index in `[start, size)` with the shortest duration |
| `PlayLists.PlayList.TitleOfShortestTrack` | PlayList.java:180-186 | None on the empty list; otherwise the title of the first shortest track |
| `PlayLists.PlayList.SortedInPlace` | PlayList.java:188-201 | afterwards the tracks are in non-decreasing duration order and are a permutation of the old tracks; size and capacity are unchanged; a sorted list is left as it is |
| `TrackLists.InsertAt` | PlayList.java:86-91 | inserting puts the track at `i`, keeps the tracks before `i`, and moves the tracks from `i` on one place right |
| `TrackLists.Without` | PlayList.java:106-107 | removing index `j` keeps the tracks before `j` and moves the later ones one place left, in order |
| `TrackLists.WithoutInsertAt` | PlayList.java:86-117 | removing the track just inserted at `i` restores the list |
| `TrackLists.InsertAtWithout` | PlayList.java:86-117 | re-inserting a removed track at its index restores the list |
| `TrackLists.MultisetInsertAt` | PlayList.java:86-104 | insertion adds exactly one copy of the inserted track to the multiset of tracks |
| `TrackLists.MultisetWithout` | PlayList.java:106-117 | removal takes exactly one copy of the removed track out of the multiset of tracks |
| `TrackLists.DurationAppend` | PlayList.java:145-158 | the total duration of a concatenation (as made by `add(PlayList)`) is the sum of the totals |
| `TrackLists.DurationInsertAt` | PlayList.java:66-104 | inserting a track adds its duration to the total duration |
| `TrackLists.DurationWithout` | PlayList.java:66-117 | removing a track takes its duration off the total duration |
| `TrackLists.DurationPermutation` | PlayList.java:188-201 | any reordering, such as the sort, keeps the total duration |
| `TrackLists.TitleIndex` | PlayList.java:75-84 | the result is -1 or the index of a track with the title, and no track before it (none at all when -1) has that title |
| `TrackLists.TitledPositive` | PlayList.java:119-134 | some track has the title exactly when the count of tracks with that title is positive |
| `TrackLists.TitledWithout` | PlayList.java:119-134 | removing one track lowers the count of its own title by one and leaves the other counts unchanged |
| `TrackLists.WithoutFirstTitledCount` | PlayList.java:119-134 | removing by title takes out exactly one track with that title when there is one, so later duplicates remain; otherwise the list keeps its length |
| `TrackLists.FirstMinIndex` | PlayList.java:160-178 | the result lies in `[start, size)`, its duration is at most every duration from `start` on, and it is strictly below every duration before it from `start` on (the first minimum) |
| `TrackLists.FirstMinUnique` | PlayList.java:160-178 | the first minimum is unique, so any index with that property is `FirstMinIndex` |
| `TrackLists.SortedFirstMin` | PlayList.java:188-201 | in a sorted list the first minimum from `i` on is at `i` |
| `TrackLists.Swap` | PlayList.java:188-201 | exchanging two tracks keeps the length and the multiset and changes only those two positions |
| `TrackLists.SelectionStep` | PlayList.java:188-201 | swapping index `i` with the first minimum from `i` on puts one more track in place; on a sorted list the step changes nothing |
| `TrackLists.SevenTracksExample` | PlayList.java:160-165 | with durations 7, 1, 6, 7, 5, 8, 7 the first minimum from index 2 is at index 4, and the total duration is 41 |
| `TrackLists.InsertExample` | PlayList.java:86-88 | inserting t4 at 1 into (t5, t3, t1) gives (t5, t4, t3, t1); inserting t3 at 0 into () gives (t3) |
| `AsWritten.CarryRight` | PlayList.java:97-101 | the carry loop of `add(int,Track)`: slot `k` gets the carried track, each slot in `(k, end)` gets its left neighbour's old content, and every other slot is unchanged |
| `AsWritten.AddAt` | PlayList.java:92-104 | as written: succeeds exactly when `0 <= i < size < maxSize` (so `i == size` is refused), and `size` never changes |
| `AsWritten.AddAtLosesLastTrack` | PlayList.java:92-104 | as written, `add(1, t4)` on (t5, t3, t1) returns true but the list shows (t5, t4, t3) |
| `AsWritten.AddAtRefusesEnd` | PlayList.java:93 | as written, `add(0, t3)` on the empty list returns false |
| `AsWritten.CopyNext` | PlayList.java:111-113 | the copy loop of `remove(int)` as written: every slot in `[x, end)` gets the track of slot `i + 1`, and every other slot is unchanged |
| `AsWritten.RemoveAt` | PlayList.java:109-117 | as written, `size` never changes and the buffer keeps its length |
| `AsWritten.RemoveAtCopiesWrongSlot` | PlayList.java:110-114 | as written, `remove(1)` on (a, b, c, d) leaves (a, c, c, null), and `remove(0)` does nothing |
| `AsWritten.ShiftLeft` | PlayList.java:129-130 | the inner shift loop of `remove(String)` moves slots `(k, end]` one place left and keeps the rest |
| `AsWritten.ScanTitle` | PlayList.java:123-133 | the outer scan of `remove(String)` from index `i`, which keeps going after a removal with the shrunken size: the state stays well formed and the size never grows |
| `AsWritten.RemoveTitle` | PlayList.java:122-134 | as written, the size never grows |
| `AsWritten.RemoveTitleRemovesTwo` | PlayList.java:122-134 | as written, `remove("A")` on (A1, B, A2) leaves (B) instead of (B, A2) |
| `AsWritten.RemoveFirst` | PlayList.java:137-143 | as written, slot 0 becomes null, the other slots do not move, and size drops by one |
| `AsWritten.RemoveFirstLeavesNull` | PlayList.java:137-143 | as written, `removeFirst()` on (a, b) leaves a list showing (null) |
| `AsWritten.GetTrack` | PlayList.java:26-33 | `other.getTrack(index)`: the slot at `index` when `0 <= index < size`, otherwise null |
| `AsWritten.FillWith` | PlayList.java:151-155 | the copy loop of `add(PlayList)` as written: every slot in `[i, end)` gets the same track, and every other slot is unchanged |
| `AsWritten.AddAll` | PlayList.java:148-158 | as written, the size becomes the combined size exactly when that fits |
| `AsWritten.AddAllRepeatsFirst` | PlayList.java:151-155 | as written, adding (x, y) to (a) gives (a, x, x) |
| `AsWritten.MinLoop` | PlayList.java:171-176 | the loop returns its initial `minI` (the sentinel 0 in the Java call) or an index it scanned |
| `AsWritten.MinIndex` | PlayList.java:166-178 | as written, the result is -1 outside the valid starts and otherwise some index below size, not necessarily at or after `start` |
| `AsWritten.MinLoopKeepsSentinel` | PlayList.java:169-176 | as written, when no duration from the start on is below 100 the result is the sentinel index 0 |
| `AsWritten.MinIndexLeavesRange` | PlayList.java:166-178 | as written, with durations 7, 150 `minIndex(1)` returns 0, which is below the start |
| `AsWritten.TitleOfShortestTrack` | PlayList.java:182-186 | as written, returns a title exactly when the list is non-empty |
| `AsWritten.ShortestTitleWrong` | PlayList.java:182-186 | as written, with durations 200, 150 the title of the 200-second track is returned |
| `AsWritten.SortLoop` | PlayList.java:194-198 | the loop of `sortedInPlace` from iteration `i`: the size is never changed, whether it returns or throws |
| `AsWritten.SortedInPlace` | PlayList.java:192-201 | as written, the size is unchanged, whether it returns normally or throws |
| `AsWritten.SortedInPlaceFails` | PlayList.java:192-201 | as written, durations (200, 150) come back unsorted, and durations (2, 1) throw a NullPointerException after `remove(1)` has left slot 1 null |

## Findings

| source | as written | input that shows it | evidently intended | confidence | as-written member | corrected member |
|---|---|---|---|---|---|---|
| PlayList.java:93 | `i >= size` refuses insertion at index `size` | `add(0, t3)` on the empty list returns false | `i > size` refuses only indices past the end, as in the documented `add(0, t3)` example | high (not executed) | `AsWritten.AddAt`, `AsWritten.AddAtRefusesEnd` | `PlayLists.PlayList.AddAt` |
| PlayList.java:95-102 | `size` is not incremented after the shift | `add(1, t4)` on (t5, t3, t1) with capacity 4 shows (t5, t4, t3) | `size` grows by one, giving (t5, t4, t3, t1) | high (not executed) | `AsWritten.AddAt`, `AsWritten.AddAtLosesLastTrack` | `PlayLists.PlayList.AddAt` |
| PlayList.java:110-114 | the guard is `i > 0 && i < maxSize`, the loop copies `tracks[i+1]`, and `size` is not decremented | `remove(1)` on (a, b, c, d) gives (a, c, c, null); `remove(0)` does nothing | for `0 <= i < size`, shift the later tracks left and decrement `size`, giving (a, c, d) | high (not executed) | `AsWritten.RemoveAt`, `AsWritten.RemoveAtCopiesWrongSlot` | `PlayLists.PlayList.RemoveAt` |
| PlayList.java:123-133 | scanning goes on after a removal | `remove("A")` on (A1, B, A2) gives (B) | only the first match is removed, giving (B, A2) | high (not executed) | `AsWritten.RemoveTitle`, `AsWritten.RemoveTitleRemovesTwo` | `PlayLists.PlayList.RemoveTitle` |
| PlayList.java:138-141 | slot 0 is set to null and the other tracks are not shifted | `removeFirst()` on (a, b) shows (null) | shift left, giving (b) | high (not executed) | `AsWritten.RemoveFirst`, `AsWritten.RemoveFirstLeavesNull` | `PlayLists.PlayList.RemoveFirst` |
| PlayList.java:151-155 | `k` is declared inside the loop, so it is always 0 | adding (x, y) to (a) gives (a, x, x) | copy the other list's tracks in order, giving (a, x, y) | high (not executed) | `AsWritten.AddAll`, `AsWritten.AddAllRepeatsFirst` | `PlayLists.PlayList.AddAll` |
| PlayList.java:169-170 | the search starts from the sentinel `min = 100, minI = 0` | durations (7, 150), `minIndex(1)` returns 0 | start from the track at `start`, giving 1 | high (not executed) | `AsWritten.MinIndex`, `AsWritten.MinIndexLeavesRange` | `PlayLists.PlayList.MinIndex` |
| PlayList.java:184-185 | the result inherits the sentinel of `minIndex` | durations (200, 150) give the title of the 200-second track | the title of the 150-second track | high (not executed) | `AsWritten.TitleOfShortestTrack`, `AsWritten.ShortestTitleWrong` | `PlayLists.PlayList.TitleOfShortestTrack` |
| PlayList.java:193-198 | the sorted tracks go into a local array that is dropped, and each minimum is removed with the broken `remove(int)` | durations (200, 150) stay unsorted; durations (2, 1) throw a NullPointerException after `remove(1)` has left slot 1 null | sort the list's own tracks in place by duration | high (not executed) | `AsWritten.SortedInPlace`, `AsWritten.SortedInPlaceFails` | `PlayLists.PlayList.SortedInPlace` |

## Left out

- `toString` (PlayList.java:47-58) is string formatting. It depends on `Track.toString`, which is not part of this model. It also walks the whole array rather than the occupied prefix.
- Titles are compared by value. The Java code compares `String` references with `==` (PlayList.java:79, 124, 128), and the result then depends on string interning, which cannot be modelled.
- `null` is not a value of the model. `getTrack` and `titleOfShortestTrack` return `Option`. The class leaves vacated slots as they are instead of writing `null` into them. Those slots lie at or past `size` and are never read. `AsWritten` does keep `null` slots, as `None`.
- Integer width: `size`, indices and the duration total are unbounded. The 32-bit overflow of the `seconds` accumulator in `totalDuration` is not modelled.
- A negative `maxSize` makes the Java constructor throw `NegativeArraySizeException`. The constructor here takes a `nat`.
- The `Track` class is not part of this model. A track is an immutable value with a title and a non-negative duration.
- PlayLists.PlayList.AddAll requires that a different play list does not share this list's buffer. Java guarantees this, because every play list allocates its own private array.
- PlayLists.PlayList.SortedInPlace is not stable: tracks of equal duration may change their relative order. The Java method only promises increasing duration.
- `AsWritten` models the defective bodies as values and not in place. Its `remove(String)`, `minIndex` and `titleOfShortestTrack` assume that no null slot lies below `size`, which is true of any list that the correct operations built.

/** The history viewer's logic over the stored comments (viewer.js): room-title
    normalisation, the filter predicate, the descending timestamp sort, the unique room
    list, page arithmetic, the CSV export and the type labels. */
module ViewerQuery {
  import opened Wrappers
  import opened Text
  import CommentParser

  /** A comment as the database returns it: every field but the timestamp may be missing
      (an older content script sends only `raw`, `content` and `url`). */
  datatype StoredComment = StoredComment(
    timestamp: int,
    roomTitle: Option<string>,
    commentType: Option<string>,
    level: Option<string>,
    nickname: Option<string>,
    content: Option<string>,
    raw: Option<string>,
    url: Option<string>)

  // ---------------------------------------------------------------------------
  // Room titles
  // ---------------------------------------------------------------------------

  /** `c.roomTitle && c.roomTitle.trim() ? c.roomTitle.trim() : '未知直播间'`. */
  function NormalizeTitle(title: Option<string>): string {
    if title.Some? && Trim(title.value) != [] then Trim(title.value) else CommentParser.UnknownRoom
  }

  /** A normalised title is never empty, is already trimmed, and is the trimmed title
      exactly when that title has visible text. */
  lemma NormalizeTitleSpec(title: Option<string>)
    ensures NormalizeTitle(title) != [] && Trim(NormalizeTitle(title)) == NormalizeTitle(title)
    ensures NormalizeTitle(title) == CommentParser.UnknownRoom <==>
              title.None? || AllSpace(title.value) || Trim(title.value) == CommentParser.UnknownRoom
  {
    if title.Some? {
      TrimEmptyIffAllSpace(title.value);
      TrimIdempotent(title.value);
    }
    TrimOfTrimmed(CommentParser.UnknownRoom);
  }

  // ---------------------------------------------------------------------------
  // The filter
  // ---------------------------------------------------------------------------

  /** The filter inputs: the room selection (`'ALL'` or a title), the checked type values,
      the parsed start and end of the time window (`None` when the input is empty) and the
      search box text. */
  datatype Criteria = Criteria(
    room: string,
    checkedTypes: seq<string>,
    start: Option<int>,
    end: Option<int>,
    search: string)

  const AllRooms := "ALL"

  /** `searchInput.value.trim().toLowerCase()`. */
  function SearchKey(search: string): string {
    Lower(Trim(search))
  }

  predicate RoomPasses(c: StoredComment, crit: Criteria) {
    crit.room == AllRooms || NormalizeTitle(c.roomTitle) == crit.room
  }

  /** `checkedTypes.includes(c.type)`: a missing type is never among the checked values. */
  predicate TypePasses(c: StoredComment, crit: Criteria) {
    c.commentType.Some? && c.commentType.value in crit.checkedTypes
  }

  /** The inclusive window: the start defaults to 0, a missing end leaves it unbounded. */
  predicate TimePasses(c: StoredComment, crit: Criteria) {
    crit.start.GetOr(0) <= c.timestamp && (crit.end.None? || c.timestamp <= crit.end.value)
  }

  /** The key occurs in the lower-cased content, nickname or raw text. */
  predicate KeywordPasses(c: StoredComment, key: string) {
    key == []
    || Contains(Lower(c.content.GetOr("")), key)
    || Contains(Lower(c.nickname.GetOr("")), key)
    || Contains(Lower(c.raw.GetOr("")), key)
  }

  /** The `allComments.filter` callback. */
  predicate Accepts(c: StoredComment, crit: Criteria) {
    RoomPasses(c, crit) && TypePasses(c, crit) && TimePasses(c, crit) && KeywordPasses(c, SearchKey(crit.search))
  }

  /** The elements of `xs` that `keep` holds of, in their order: `Array.prototype.filter`. */
  function Select<T(!new)>(xs: seq<T>, keep: T -> bool): (r: seq<T>)
    ensures |r| <= |xs|
  {
    if xs == [] then []
    else (if keep(xs[0]) then [xs[0]] else []) + Select(xs[1..], keep)
  }

  /** `idx` lists, increasing, the positions of `xs` that `r` is made of, all of them
      positions whose element `keep` holds of. */
  ghost predicate KeptAt<T(!new)>(r: seq<T>, xs: seq<T>, keep: T -> bool, idx: seq<nat>) {
    |idx| == |r|
    && (forall i, j :: 0 <= i < j < |idx| ==> idx[i] < idx[j])
    && (forall i :: 0 <= i < |idx| ==> idx[i] < |xs| && r[i] == xs[idx[i]] && keep(xs[idx[i]]))
  }

  /** `Select` keeps exactly the elements `keep` holds of, as an order-preserving
      subsequence: `idx` lists the positions it keeps, increasing, and every position
      whose element `keep` holds of is one of them. */
  lemma {:induction false} SelectSubsequence<T(!new)>(xs: seq<T>, keep: T -> bool) returns (idx: seq<nat>)
    ensures KeptAt(Select(xs, keep), xs, keep, idx)
    ensures forall k :: 0 <= k < |xs| && keep(xs[k]) ==> k in idx
  {
    if xs == [] {
      idx := [];
    } else {
      var rest := Select(xs[1..], keep);
      var tail := SelectSubsequence(xs[1..], keep);
      var shifted := ShiftPositions(xs, rest, keep, tail);
      assert Select(xs, keep) == (if keep(xs[0]) then [xs[0]] else []) + rest;
      idx := ConsPositions(xs, rest, keep, shifted);
    }
  }

  /** The positions kept from `xs[1..]`, as positions of `xs`. */
  lemma ShiftPositions<T(!new)>(xs: seq<T>, rest: seq<T>, keep: T -> bool, tail: seq<nat>) returns (shifted: seq<nat>)
    requires xs != []
    requires KeptAt(rest, xs[1..], keep, tail)
    requires forall k :: 0 <= k < |xs| - 1 && keep(xs[1..][k]) ==> k in tail
    ensures |shifted| == |rest|
    ensures forall i, j :: 0 <= i < j < |shifted| ==> 0 < shifted[i] < shifted[j]
    ensures forall i :: 0 <= i < |shifted| ==> 0 < shifted[i] < |xs| && rest[i] == xs[shifted[i]] && keep(xs[shifted[i]])
    ensures forall k :: 1 <= k < |xs| && keep(xs[k]) ==> k in shifted
  {
    shifted := Shift(tail);
    ShiftKept(xs, rest, keep, tail);
    ShiftComplete(xs, keep, tail);
  }

  function Shift(tail: seq<nat>): (r: seq<nat>)
    ensures |r| == |tail| && forall i :: 0 <= i < |tail| ==> r[i] == tail[i] + 1
  {
    seq(|tail|, i requires 0 <= i < |tail| => tail[i] + 1)
  }

  lemma ShiftKept<T(!new)>(xs: seq<T>, rest: seq<T>, keep: T -> bool, tail: seq<nat>)
    requires xs != []
    requires KeptAt(rest, xs[1..], keep, tail)
    ensures forall i, j :: 0 <= i < j < |tail| ==> 0 < Shift(tail)[i] < Shift(tail)[j]
    ensures forall i :: 0 <= i < |tail| ==>
              0 < Shift(tail)[i] < |xs| && rest[i] == xs[Shift(tail)[i]] && keep(xs[Shift(tail)[i]])
  {
    var shifted := Shift(tail);
    forall i | 0 <= i < |tail| ensures rest[i] == xs[shifted[i]] {
      assert xs[1..][tail[i]] == xs[shifted[i]];
    }
  }

  lemma ShiftComplete<T(!new)>(xs: seq<T>, keep: T -> bool, tail: seq<nat>)
    requires xs != []
    requires forall k :: 0 <= k < |xs| - 1 && keep(xs[1..][k]) ==> k in tail
    ensures forall k :: 1 <= k < |xs| && keep(xs[k]) ==> k in Shift(tail)
  {
    var shifted := Shift(tail);
    forall k | 1 <= k < |xs| && keep(xs[k]) ensures k in shifted {
      assert xs[1..][k - 1] == xs[k];
      var i :| 0 <= i < |tail| && tail[i] == k - 1;
      assert shifted[i] == k;
    }
  }

  /** The positions of `[xs[0]] + rest` (when `keep` holds of `xs[0]`) or of `rest` (when
      not) in `xs`, from those of `rest`. */
  lemma ConsPositions<T(!new)>(xs: seq<T>, rest: seq<T>, keep: T -> bool, shifted: seq<nat>) returns (idx: seq<nat>)
    requires xs != [] && |shifted| == |rest|
    requires forall i, j :: 0 <= i < j < |shifted| ==> 0 < shifted[i] < shifted[j]
    requires forall i :: 0 <= i < |shifted| ==> 0 < shifted[i] < |xs| && rest[i] == xs[shifted[i]] && keep(xs[shifted[i]])
    requires forall k :: 1 <= k < |xs| && keep(xs[k]) ==> k in shifted
    ensures KeptAt((if keep(xs[0]) then [xs[0]] else []) + rest, xs, keep, idx)
    ensures forall k :: 0 <= k < |xs| && keep(xs[k]) ==> k in idx
  {
    if keep(xs[0]) {
      idx := [0] + shifted;
      ConsOrder(shifted);
      ConsValues(xs, rest, keep, shifted);
      ConsComplete(xs, keep, shifted);
    } else {
      idx := shifted;
      assert [] + rest == rest;
    }
  }

  lemma ConsOrder(shifted: seq<nat>)
    requires forall i :: 0 <= i < |shifted| ==> 0 < shifted[i]
    requires forall i, j :: 0 <= i < j < |shifted| ==> shifted[i] < shifted[j]
    ensures forall i, j :: 0 <= i < j < |[0] + shifted| ==> ([0] + shifted)[i] < ([0] + shifted)[j]
  {
    var idx := [0] + shifted;
    forall i, j | 0 <= i < j < |idx| ensures idx[i] < idx[j] {
      assert idx[0] == 0 && idx[j] == shifted[j - 1];
      if i > 0 {
        assert idx[i] == shifted[i - 1];
      }
    }
  }

  lemma ConsValues<T(!new)>(xs: seq<T>, rest: seq<T>, keep: T -> bool, shifted: seq<nat>)
    requires xs != [] && |shifted| == |rest| && keep(xs[0])
    requires forall i :: 0 <= i < |shifted| ==> shifted[i] < |xs| && rest[i] == xs[shifted[i]] && keep(xs[shifted[i]])
    ensures forall i :: 0 <= i < |[0] + shifted| ==>
              ([0] + shifted)[i] < |xs| && ([xs[0]] + rest)[i] == xs[([0] + shifted)[i]] && keep(xs[([0] + shifted)[i]])
  {
    var idx := [0] + shifted;
    var r := [xs[0]] + rest;
    forall i | 0 < i < |idx| ensures idx[i] == shifted[i - 1] && r[i] == rest[i - 1] {
    }
  }

  lemma ConsComplete<T(!new)>(xs: seq<T>, keep: T -> bool, shifted: seq<nat>)
    requires xs != []
    requires forall k :: 1 <= k < |xs| && keep(xs[k]) ==> k in shifted
    ensures forall k :: 1 <= k < |xs| && keep(xs[k]) ==> k in [0] + shifted
  {
    forall k | 1 <= k < |xs| && keep(xs[k]) ensures k in [0] + shifted {
      var i :| 0 <= i < |shifted| && shifted[i] == k;
      assert ([0] + shifted)[i + 1] == k;
    }
  }

  /** Nothing is kept when `keep` holds of no element. */
  lemma {:induction false} SelectNone<T(!new)>(xs: seq<T>, keep: T -> bool)
    requires forall k :: 0 <= k < |xs| ==> !keep(xs[k])
    ensures Select(xs, keep) == []
  {
    if xs != [] {
      assert forall k :: 0 <= k < |xs| - 1 ==> xs[1..][k] == xs[k + 1];
      SelectNone(xs[1..], keep);
    }
  }

  /** Selecting from a concatenation selects from each part. */
  lemma {:induction false} SelectAppend<T(!new)>(a: seq<T>, b: seq<T>, keep: T -> bool)
    ensures Select(a + b, keep) == Select(a, keep) + Select(b, keep)
  {
    if a == [] {
      assert a + b == b;
    } else {
      var ab := a + b;
      assert ab[0] == a[0] && ab[1..] == a[1..] + b;
      SelectAppend(a[1..], b, keep);
      var head := if keep(a[0]) then [a[0]] else [];
      SeqAssoc(head, Select(a[1..], keep), Select(b, keep));
    }
  }

  lemma SeqAssoc<T(!new)>(x: seq<T>, y: seq<T>, z: seq<T>)
    ensures (x + y) + z == x + (y + z)
  {
  }

  /** `filteredComments`: the accepted comments, in their order. */
  function Filter(cs: seq<StoredComment>, crit: Criteria): seq<StoredComment> {
    Select(cs, c => Accepts(c, crit))
  }

  /** The filter keeps exactly the accepted comments, as an order-preserving subsequence
      of the loaded ones: `idx` lists the positions it keeps, increasing, and every
      accepted position is one of them. */
  lemma FilterSubsequence(cs: seq<StoredComment>, crit: Criteria) returns (idx: seq<nat>)
    ensures |idx| == |Filter(cs, crit)|
    ensures forall i, j :: 0 <= i < j < |idx| ==> idx[i] < idx[j]
    ensures forall i :: 0 <= i < |idx| ==> idx[i] < |cs| && Filter(cs, crit)[i] == cs[idx[i]] && Accepts(cs[idx[i]], crit)
    ensures forall k :: 0 <= k < |cs| && Accepts(cs[k], crit) ==> k in idx
  {
    idx := SelectSubsequence(cs, c => Accepts(c, crit));
  }

  /** A comment is shown exactly when it is loaded and accepted. */
  lemma FilterMembers(cs: seq<StoredComment>, crit: Criteria, c: StoredComment)
    ensures c in Filter(cs, crit) <==> c in cs && Accepts(c, crit)
  {
    var idx := FilterSubsequence(cs, crit);
    if c in Filter(cs, crit) {
      var i :| 0 <= i < |Filter(cs, crit)| && Filter(cs, crit)[i] == c;
      assert cs[idx[i]] == c;
    }
    if c in cs && Accepts(c, crit) {
      var k :| 0 <= k < |cs| && cs[k] == c;
      var i :| 0 <= i < |idx| && idx[i] == k;
      assert Filter(cs, crit)[i] == c;
    }
  }

  /** Filtering a concatenation filters each part. */
  lemma FilterAppend(a: seq<StoredComment>, b: seq<StoredComment>, crit: Criteria)
    ensures Filter(a + b, crit) == Filter(a, crit) + Filter(b, crit)
  {
    SelectAppend(a, b, c => Accepts(c, crit));
  }

  /** With no type checked nothing passes. */
  lemma NoTypesNothing(cs: seq<StoredComment>, crit: Criteria)
    requires crit.checkedTypes == []
    ensures Filter(cs, crit) == []
  {
    SelectNone(cs, c => Accepts(c, crit));
  }

  /** A blank search box filters on room, type and time only. */
  lemma BlankSearchAcceptsAll(c: StoredComment, crit: Criteria)
    requires AllSpace(crit.search)
    ensures Accepts(c, crit) <==> RoomPasses(c, crit) && TypePasses(c, crit) && TimePasses(c, crit)
  {
    TrimEmptyIffAllSpace(crit.search);
  }

  /** The search ignores the case and the surrounding whitespace of what is typed: the
      key of the lower-cased or trimmed text is the key of the text. */
  lemma SearchKeyNormal(s: string)
    ensures SearchKey(Lower(s)) == SearchKey(s) && SearchKey(Trim(s)) == SearchKey(s)
  {
    LowerTrim(s);
    LowerIdempotent(Trim(s));
    TrimIdempotent(s);
  }

  /** The search text counts only through its key, so, by `SearchKeyNormal`, typing it in
      another case or with other surrounding whitespace filters the same. */
  lemma AcceptsByKey(c: StoredComment, crit: Criteria, search: string)
    requires SearchKey(search) == SearchKey(crit.search)
    ensures Accepts(c, crit.(search := search)) == Accepts(c, crit)
  {
  }

  /** A non-blank search passes a comment exactly when the key occurs at some position of
      one of its three lower-cased texts. */
  lemma KeywordOccurs(c: StoredComment, crit: Criteria)
    requires SearchKey(crit.search) != []
    ensures KeywordPasses(c, SearchKey(crit.search)) <==>
              (exists i :: OccursAt(Lower(c.content.GetOr("")), SearchKey(crit.search), i))
              || (exists i :: OccursAt(Lower(c.nickname.GetOr("")), SearchKey(crit.search), i))
              || (exists i :: OccursAt(Lower(c.raw.GetOr("")), SearchKey(crit.search), i))
  {
    var key := SearchKey(crit.search);
    ContainsIffOccurs(Lower(c.content.GetOr("")), key);
    ContainsIffOccurs(Lower(c.nickname.GetOr("")), key);
    ContainsIffOccurs(Lower(c.raw.GetOr("")), key);
  }

  /**
   * A comment the other tests accept is shown exactly when its timestamp lies in the
   * window, both ends included.
   */
  lemma WindowInclusive(c: StoredComment, crit: Criteria)
    ensures RoomPasses(c, crit) && TypePasses(c, crit) && KeywordPasses(c, SearchKey(crit.search)) ==>
              (Accepts(c, crit) <==> crit.start.GetOr(0) <= c.timestamp && (crit.end.None? || c.timestamp <= crit.end.value))
    ensures (crit.start.Some? && crit.end.Some? && crit.start.value <= crit.end.value
             && (c.timestamp == crit.start.value || c.timestamp == crit.end.value)) ==> TimePasses(c, crit)
  {
  }

  // ---------------------------------------------------------------------------
  // The descending timestamp sort
  // ---------------------------------------------------------------------------

  predicate SortedDesc(cs: seq<StoredComment>) {
    forall i, j :: 0 <= i < j < |cs| ==> cs[i].timestamp >= cs[j].timestamp
  }

  /** Places `c` before the first comment that is not newer: the place of a stable sort
      for a comment that preceded all of `s`. */
  function Insert(c: StoredComment, s: seq<StoredComment>): (r: seq<StoredComment>)
    ensures multiset(r) == multiset{c} + multiset(s)
  {
    if s == [] || s[0].timestamp <= c.timestamp then [c] + s
    else
      assert s == [s[0]] + s[1..];
      [s[0]] + Insert(c, s[1..])
  }

  /** Inserting into a newest-first list keeps it newest first. */
  lemma {:induction false} InsertSorted(c: StoredComment, s: seq<StoredComment>)
    requires SortedDesc(s)
    ensures SortedDesc(Insert(c, s))
  {
    if !(s == [] || s[0].timestamp <= c.timestamp) {
      InsertSorted(c, s[1..]);
      forall k | 0 <= k < |s[1..]| ensures s[1..][k].timestamp <= s[0].timestamp {
        assert s[1..][k] == s[k + 1];
      }
      InsertBelow(c, s[1..], s[0].timestamp);
      ConsSorted(s[0], Insert(c, s[1..]));
    }
  }

  /** Inserting a comment no newer than `t` among comments no newer than `t`. */
  lemma InsertBelow(c: StoredComment, s: seq<StoredComment>, t: int)
    requires c.timestamp <= t
    requires forall k :: 0 <= k < |s| ==> s[k].timestamp <= t
    ensures forall k :: 0 <= k < |Insert(c, s)| ==> Insert(c, s)[k].timestamp <= t
  {
    var r := Insert(c, s);
    forall k | 0 <= k < |r| ensures r[k].timestamp <= t {
      assert r[k] in multiset(r);
      if r[k] != c {
        assert r[k] in multiset(s);
        var j :| 0 <= j < |s| && s[j] == r[k];
      }
    }
  }

  lemma ConsSorted(h: StoredComment, rest: seq<StoredComment>)
    requires SortedDesc(rest)
    requires forall k :: 0 <= k < |rest| ==> rest[k].timestamp <= h.timestamp
    ensures SortedDesc([h] + rest)
  {
    var r := [h] + rest;
    forall i, j | 0 <= i < j < |r| ensures r[i].timestamp >= r[j].timestamp {
      assert r[j] == rest[j - 1];
      if i > 0 {
        assert r[i] == rest[i - 1];
      }
    }
  }

  /** `allComments.sort((a, b) => b.timestamp - a.timestamp)`: newest first, comments with
      the same timestamp in their original order. */
  function SortDesc(cs: seq<StoredComment>): (r: seq<StoredComment>)
    ensures multiset(r) == multiset(cs)
    ensures SortedDesc(r)
  {
    if cs == [] then []
    else
      assert cs == [cs[0]] + cs[1..];
      InsertSorted(cs[0], SortDesc(cs[1..]));
      Insert(cs[0], SortDesc(cs[1..]))
  }

  /** The comments with timestamp `t`, in order. */
  function AtTime(cs: seq<StoredComment>, t: int): seq<StoredComment> {
    if cs == [] then []
    else (if cs[0].timestamp == t then [cs[0]] else []) + AtTime(cs[1..], t)
  }

  lemma {:induction false} InsertAtTime(c: StoredComment, s: seq<StoredComment>, t: int)
    ensures AtTime(Insert(c, s), t) == (if c.timestamp == t then [c] else []) + AtTime(s, t)
  {
    if s == [] || s[0].timestamp <= c.timestamp {
      assert ([c] + s)[1..] == s;
    } else {
      var rest := Insert(c, s[1..]);
      InsertAtTime(c, s[1..], t);
      assert ([s[0]] + rest)[1..] == rest;
    }
  }

  /** The sort is stable: for every timestamp the comments carrying it keep their order. */
  lemma {:induction false} SortStable(cs: seq<StoredComment>, t: int)
    ensures AtTime(SortDesc(cs), t) == AtTime(cs, t)
  {
    if cs != [] {
      SortStable(cs[1..], t);
      InsertAtTime(cs[0], SortDesc(cs[1..]), t);
    }
  }

  // ---------------------------------------------------------------------------
  // The room list
  // ---------------------------------------------------------------------------

  /** The distinct normalised titles of `cs` in first-occurrence order: the iteration
      order of the `Set` that `updateRoomOptions` fills. */
  function RoomList(cs: seq<StoredComment>): (r: seq<string>)
    ensures forall x :: x in r <==> exists c :: c in cs && NormalizeTitle(c.roomTitle) == x
    ensures forall i, j :: 0 <= i < j < |r| ==> r[i] != r[j]
    decreases |cs|
  {
    if cs == [] then []
    else
      var prev := RoomList(cs[..|cs| - 1]);
      var title := NormalizeTitle(cs[|cs| - 1].roomTitle);
      assert forall c :: c in cs <==> c in cs[..|cs| - 1] || c == cs[|cs| - 1] by {
        assert cs == cs[..|cs| - 1] + [cs[|cs| - 1]];
      }
      if title in prev then prev else prev + [title]
  }

  /** `rooms.add(title)` in the `forEach`. */
  method CollectRooms(cs: seq<StoredComment>) returns (rooms: seq<string>)
    ensures rooms == RoomList(cs)
  {
    rooms := [];
    var i := 0;
    while i < |cs|
      invariant 0 <= i <= |cs|
      invariant rooms == RoomList(cs[..i])
    {
      assert cs[..i + 1][..i] == cs[..i];
      var title := NormalizeTitle(cs[i].roomTitle);
      if title !in rooms {
        rooms := rooms + [title];
      }
      i := i + 1;
    }
    assert cs[..i] == cs;
  }

  /** Every comment can be shown by selecting its own room: its room is an option, and
      with that room selected, its type checked, no window and no search, the filter
      shows it, and shows comments of that room only (unless the room's title is itself
      `ALL`, which the selection then reads as every room). */
  lemma RoomOptionsCover(cs: seq<StoredComment>, c: StoredComment)
    requires c in cs
    ensures NormalizeTitle(c.roomTitle) in RoomList(cs)
    ensures c.commentType.Some? && c.timestamp >= 0 ==>
              c in Filter(cs, Criteria(NormalizeTitle(c.roomTitle), [c.commentType.value], None, None, ""))
    ensures NormalizeTitle(c.roomTitle) != AllRooms ==>
              forall d :: d in Filter(cs, Criteria(NormalizeTitle(c.roomTitle), [c.commentType.GetOr("")], None, None, "")) ==>
                NormalizeTitle(d.roomTitle) == NormalizeTitle(c.roomTitle)
  {
    var room := NormalizeTitle(c.roomTitle);
    var crit := Criteria(room, [c.commentType.GetOr("")], None, None, "");
    BlankSearchAcceptsAll(c, crit);
    FilterMembers(cs, crit, c);
    if room != AllRooms {
      forall d | d in Filter(cs, crit) ensures NormalizeTitle(d.roomTitle) == room {
        FilterMembers(cs, crit, d);
      }
    }
  }

  /** The selection `updateRoomOptions` ends with: the previous value when it is still an
      option, otherwise the first option, `'ALL'`, the one the rebuild never removes. */
  function RestoreSelection(previous: string, rooms: seq<string>): (r: string)
    ensures r == AllRooms || r in rooms
    ensures r == previous <==> previous in rooms || previous == AllRooms
  {
    if previous in rooms then previous else AllRooms
  }

  // ---------------------------------------------------------------------------
  // Pages
  // ---------------------------------------------------------------------------

  const PageSize := 1000

  /** `Math.ceil(n / pageSize)`. */
  function PageCount(n: nat): nat {
    (n + PageSize - 1) / PageSize
  }

  /** `Math.ceil(totalCount / pageSize) || 1`. */
  function TotalPages(n: nat): (r: nat)
    ensures r >= 1
  {
    if PageCount(n) == 0 then 1 else PageCount(n)
  }

  /** The ceiling is the least page count that holds `n` rows. */
  lemma PageCountSpec(n: nat)
    ensures PageCount(n) * PageSize >= n
    ensures PageCount(n) > 0 ==> (PageCount(n) - 1) * PageSize < n
    ensures PageCount(n) == 0 <==> n == 0
    ensures TotalPages(n) == if n == 0 then 1 else PageCount(n)
  {
  }

  /** `filteredComments.slice(startIdx, endIdx)` for page `p`. */
  function PageSlice(cs: seq<StoredComment>, p: nat): (r: seq<StoredComment>)
    requires p >= 1
    ensures |r| <= PageSize
  {
    var startIdx := (p - 1) * PageSize;
    if startIdx >= |cs| then []
    else cs[startIdx..if startIdx + PageSize < |cs| then startIdx + PageSize else |cs|]
  }

  /** Row `i` is shown on page `i / 1000 + 1`, at position `i % 1000`, and every page up to
      the last one is non-empty. */
  lemma PageOf(cs: seq<StoredComment>, i: nat)
    requires i < |cs|
    ensures var p := i / PageSize + 1;
            p <= TotalPages(|cs|) && i % PageSize < |PageSlice(cs, p)| && PageSlice(cs, p)[i % PageSize] == cs[i]
  {
  }

  /** Pages `1..k` together, in order. */
  function Pages(cs: seq<StoredComment>, k: nat): seq<StoredComment> {
    if k == 0 then [] else Pages(cs, k - 1) + PageSlice(cs, k)
  }

  lemma {:induction false} PagesPrefix(cs: seq<StoredComment>, k: nat)
    ensures Pages(cs, k) == cs[..if k * PageSize < |cs| then k * PageSize else |cs|]
  {
    if k > 0 {
      PagesPrefix(cs, k - 1);
    }
  }

  /** The pages partition the filtered rows: read in order, they are the rows. */
  lemma PagesPartition(cs: seq<StoredComment>)
    ensures Pages(cs, TotalPages(|cs|)) == cs
  {
    PagesPrefix(cs, TotalPages(|cs|));
  }

  /** The next page when `nextPageBtn` is pressed. */
  function NextPage(p: nat, n: nat): nat {
    if p < PageCount(n) then p + 1 else p
  }

  /** The previous page when `prevPageBtn` is pressed. */
  function PrevPage(p: nat): nat {
    if p > 1 then p - 1 else p
  }

  /** Prev and next keep the page within `1..totalPages`, and a page already out of range
      (left behind by a failed reload) is never moved further out. */
  lemma PagerBounds(p: nat, n: nat)
    ensures 1 <= p <= TotalPages(n) ==> 1 <= NextPage(p, n) <= TotalPages(n) && 1 <= PrevPage(p) <= TotalPages(n)
    ensures p >= 1 ==> PrevPage(p) >= 1 && PrevPage(p) <= p && NextPage(p, n) >= p
    ensures p >= TotalPages(n) ==> NextPage(p, n) == p
    ensures NextPage(p, n) != p <==> p < PageCount(n)
  {
  }

  // ---------------------------------------------------------------------------
  // CSV export
  // ---------------------------------------------------------------------------

  const CsvHeader := "\U{FEFF}Timestamp,RoomTitle,Type,Level,Nickname,Content,RawContent,URL\n"

  /** `${c.url}`: a missing url is written as `undefined`. */
  function UrlText(url: Option<string>): string {
    if url.Some? then url.value else "undefined"
  }

  /** The six escaped columns of a row, missing values as `""`. */
  function EscapedColumns(c: StoredComment): seq<string> {
    [c.roomTitle.GetOr(""), c.commentType.GetOr(""), c.level.GetOr(""),
     c.nickname.GetOr(""), c.content.GetOr(""), c.raw.GetOr("")]
  }

  /** Each value quoted and followed by a comma. */
  function QuotedFields(fs: seq<string>): string {
    if fs == [] then [] else Quote(fs[0]) + "," + QuotedFields(fs[1..])
  }

  /** One row: the formatted time unquoted, the six escaped columns, the url quoted as it is. */
  function CsvRow(c: StoredComment, time: string): string {
    time + "," + QuotedFields(EscapedColumns(c)) + "\"" + UrlText(c.url) + "\"" + "\n"
  }

  /** The rows of `cs`, `fmt` standing for `new Date(ts).toLocaleString()`. */
  function CsvRows(cs: seq<StoredComment>, fmt: int -> string): string
    decreases |cs|
  {
    if cs == [] then [] else CsvRows(cs[..|cs| - 1], fmt) + CsvRow(cs[|cs| - 1], fmt(cs[|cs| - 1].timestamp))
  }

  /** The export-csv handler: `None` (the "no data" alert) for an empty list, otherwise the
      header followed by one row per comment. */
  method ExportCsv(cs: seq<StoredComment>, fmt: int -> string) returns (file: Option<string>)
    ensures cs == [] <==> file.None?
    ensures file.Some? ==> file.value == CsvHeader + CsvRows(cs, fmt)
  {
    if |cs| == 0 {
      return None;
    }
    var csvContent := AppendRows(CsvHeader, cs, fmt);
    file := Some(csvContent);
  }

  /** The `forEach` that appends one row per comment to `csvContent`. */
  method AppendRows(csvContent: string, cs: seq<StoredComment>, fmt: int -> string) returns (out: string)
    ensures out == csvContent + CsvRows(cs, fmt)
  {
    out := csvContent;
    var i := 0;
    while i < |cs|
      invariant 0 <= i <= |cs|
      invariant out == csvContent + CsvRows(cs[..i], fmt)
    {
      var row := CsvRow(cs[i], fmt(cs[i].timestamp));
      CsvRowsSnoc(cs, i, fmt);
      AppendAssoc(csvContent, CsvRows(cs[..i], fmt), row);
      out := out + row;
      i := i + 1;
    }
    assert cs[..i] == cs;
  }

  lemma AppendAssoc(a: string, b: string, c: string)
    ensures (a + b) + c == a + (b + c)
  {
  }

  lemma CsvRowsSnoc(cs: seq<StoredComment>, i: nat, fmt: int -> string)
    requires i < |cs|
    ensures CsvRows(cs[..i + 1], fmt) == CsvRows(cs[..i], fmt) + CsvRow(cs[i], fmt(cs[i].timestamp))
  {
    assert cs[..i + 1][..i] == cs[..i];
  }

  /** Reads one quoted field and the comma or newline after it. */
  function ReadField(s: string): (r: Option<(string, string)>)
    ensures r.Some? ==> |r.value.1| < |s|
  {
    if s == [] || s[0] != '"' then None
    else
      ReadQuotedShorter(s[1..]);
      match ReadQuoted(s[1..])
      case None => None
      case Some(p) =>
        if p.1 != [] && (p.1[0] == ',' || p.1[0] == '\n') then Some((p.0, p.1[1..])) else None
  }

  lemma ReadQuotedShorter(s: string)
    ensures ReadQuoted(s).Some? ==> |ReadQuoted(s).value.1| < |s|
    decreases |s|
  {
    if s != [] && s[0] == '"' && |s| >= 2 && s[1] == '"' {
      ReadQuotedShorter(s[2..]);
    } else if s != [] && s[0] != '"' {
      ReadQuotedShorter(s[1..]);
    }
  }

  /** Reads `k` fields. */
  function ReadFields(s: string, k: nat): Option<(seq<string>, string)>
    decreases k
  {
    if k == 0 then Some(([], s))
    else
      match ReadField(s)
      case None => None
      case Some(p) =>
        match ReadFields(p.1, k - 1)
        case None => None
        case Some(q) => Some(([p.0] + q.0, q.1))
  }

  /** The text up to the first comma, and what follows that comma. */
  function ReadTime(s: string): Option<(string, string)> {
    if s == [] then None
    else if s[0] == ',' then Some(([], s[1..]))
    else
      match ReadTime(s[1..])
      case None => None
      case Some(p) => Some(([s[0]] + p.0, p.1))
  }

  /** Reads one row back: its time column and the seven quoted columns. */
  function ReadRow(s: string): Option<(string, seq<string>, string)> {
    match ReadTime(s)
    case None => None
    case Some(t) =>
      match ReadFields(t.1, 7)
      case None => None
      case Some(f) => Some((t.0, f.0, f.1))
  }

  lemma {:induction false} ReadTimeSpec(time: string, rest: string)
    requires NoneIn(time, {','})
    ensures ReadTime(time + "," + rest) == Some((time, rest))
  {
    if time == [] {
      assert time + "," + rest == [','] + rest;
    } else {
      assert (time + "," + rest)[1..] == time[1..] + "," + rest;
      ReadTimeSpec(time[1..], rest);
      assert [time[0]] + time[1..] == time;
    }
  }

  lemma ReadFieldSpec(x: string, sep: char, rest: string)
    requires sep == ',' || sep == '\n'
    ensures ReadField(Quote(x) + [sep] + rest) == Some((x, rest))
  {
    ReadQuotedEscape(x, [sep] + rest);
    assert (Quote(x) + [sep] + rest)[1..] == EscapeQuotes(x) + "\"" + ([sep] + rest);
  }

  lemma {:induction false} ReadFieldsSpec(fs: seq<string>, last: string, rest: string)
    ensures ReadFields(QuotedFields(fs) + Quote(last) + "\n" + rest, |fs| + 1) == Some((fs + [last], rest))
  {
    if fs == [] {
      assert QuotedFields(fs) + Quote(last) + "\n" + rest == Quote(last) + ['\n'] + rest;
      ReadFieldSpec(last, '\n', rest);
      assert ReadFields(rest, 0) == Some(([], rest));
      assert [last] + [] == fs + [last];
    } else {
      var tail := QuotedFields(fs[1..]) + Quote(last) + "\n" + rest;
      assert QuotedFields(fs) + Quote(last) + "\n" + rest == Quote(fs[0]) + [','] + tail;
      ReadFieldSpec(fs[0], ',', tail);
      ReadFieldsSpec(fs[1..], last, rest);
      assert [fs[0]] + (fs[1..] + [last]) == fs + [last];
    }
  }

  lemma EscapeQuotesNone(s: string)
    requires NoneIn(s, {'"'})
    ensures EscapeQuotes(s) == s
  {
    if s != [] {
      EscapeQuotesNone(s[1..]);
      assert [s[0]] + s[1..] == s;
    }
  }

  lemma RowShape(time: string, fields: string, url: string, rest: string)
    ensures time + "," + fields + "\"" + url + "\"" + "\n" + rest
            == time + "," + (fields + ("\"" + url + "\"") + "\n" + rest)
  {
  }

  /** A row reads back as the comment's time text, its six columns with missing values as
      `""`, and its url, provided the time text has no comma and the url no quote: the
      time column is not quoted and the url is not escaped. */
  lemma CsvRowRoundTrip(c: StoredComment, time: string, rest: string)
    requires NoneIn(time, {','}) && NoneIn(UrlText(c.url), {'"'})
    ensures ReadRow(CsvRow(c, time) + rest) == Some((time, EscapedColumns(c) + [UrlText(c.url)], rest))
  {
    var url := UrlText(c.url);
    EscapeQuotesNone(url);
    var body := QuotedFields(EscapedColumns(c)) + Quote(url) + "\n" + rest;
    RowShape(time, QuotedFields(EscapedColumns(c)), url, rest);
    assert CsvRow(c, time) + rest == time + "," + body;
    ReadTimeSpec(time, body);
    ReadFieldsSpec(EscapedColumns(c), url, rest);
  }

  // ---------------------------------------------------------------------------
  // Type labels
  // ---------------------------------------------------------------------------

  /** The type column's text. */
  function TypeLabel(t: Option<string>): string {
    if t == Some("normal-comment") then "评论"
    else if t == Some("notify-comment") then "通知"
    else if t == Some("room-bottom-message") then "动态"
    else if t.Some? && t.value != "" then t.value
    else "-"
  }

  /** The three types the content script assigns get three distinct labels; any other
      type is shown as it is, and a missing or empty one as `-`. */
  lemma TypeLabelSpec(t: CommentParser.CommentType, u: CommentParser.CommentType, other: Option<string>)
    ensures TypeLabel(Some(CommentParser.TypeName(t))) in {"评论", "通知", "动态"}
    ensures TypeLabel(Some(CommentParser.TypeName(t))) == TypeLabel(Some(CommentParser.TypeName(u))) <==> t == u
    ensures (forall k :: other != Some(CommentParser.TypeName(k))) ==>
              TypeLabel(other) == (if other.Some? && other.value != "" then other.value else "-")
  {
    if forall k :: other != Some(CommentParser.TypeName(k)) {
      assert other != Some(CommentParser.TypeName(CommentParser.NormalComment));
      assert other != Some(CommentParser.TypeName(CommentParser.NotifyComment));
      assert other != Some(CommentParser.TypeName(CommentParser.RoomBottomMessage));
    }
  }
}

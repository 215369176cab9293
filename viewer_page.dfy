/** The history viewer page's state (viewer.js): the loaded and the filtered comments, the
    current page, the room selection and its options, and the handlers that update them. */
module ViewerPage {
  import opened Wrappers
  import opened ViewerQuery

  /** What the filter form holds when `applyFilters` reads it, apart from the room
      selection: the checked type values, the parsed window ends and the search text. */
  datatype Form = Form(checkedTypes: seq<string>, start: Option<int>, end: Option<int>, search: string)

  function CriteriaOf(room: string, form: Form): Criteria {
    Criteria(room, form.checkedTypes, form.start, form.end, form.search)
  }

  class Viewer {
    var allComments: seq<StoredComment>
    var filteredComments: seq<StoredComment>
    var currentPage: nat
    /** `roomSelect.value`. */
    var roomSelection: string
    /** The options after `'ALL'`, in order. */
    var roomOptions: seq<string>
    /** The criteria of the last `applyFilters`. */
    ghost var applied: Criteria

    /** The filtered list is what the last filter gave on the loaded list, the page is at
        least 1 and, while there is something to show, at most the last page, and the
        selection is one of the options. */
    ghost predicate Valid()
      reads this
    {
      filteredComments == Filter(allComments, applied)
      && 1 <= currentPage
      && (filteredComments != [] ==> currentPage <= TotalPages(|filteredComments|))
      && (roomSelection == AllRooms || roomSelection in roomOptions)
    }

    constructor()
      ensures Valid()
      ensures allComments == [] && filteredComments == [] && currentPage == 1
      ensures roomSelection == AllRooms && roomOptions == []
    {
      allComments := [];
      filteredComments := [];
      currentPage := 1;
      roomSelection := AllRooms;
      roomOptions := [];
      applied := Criteria(AllRooms, [], None, None, "");
    }

    /** `applyFilters`: the accepted comments, in their order, from page 1. */
    method ApplyFilters(form: Form)
      modifies this
      ensures filteredComments == Filter(allComments, CriteriaOf(roomSelection, form))
      ensures currentPage == 1 && applied == CriteriaOf(roomSelection, form)
      ensures allComments == old(allComments) && roomSelection == old(roomSelection)
      ensures roomOptions == old(roomOptions)
      ensures (roomSelection == AllRooms || roomSelection in roomOptions) ==> Valid()
    {
      var criteria := CriteriaOf(roomSelection, form);
      applied := criteria;
      filteredComments := Filter(allComments, criteria);
      currentPage := 1;
    }

    /** `updateRoomOptions`: the distinct normalised titles, the previous selection kept only
        when it is still offered. */
    method UpdateRoomOptions()
      modifies this
      ensures roomOptions == RoomList(allComments)
      ensures roomSelection == RestoreSelection(old(roomSelection), roomOptions)
      ensures allComments == old(allComments) && filteredComments == old(filteredComments)
      ensures currentPage == old(currentPage) && applied == old(applied)
    {
      var currentVal := roomSelection;
      var rooms := CollectRooms(allComments);
      roomOptions := rooms;
      roomSelection := if currentVal in rooms then currentVal else AllRooms;
    }

    /** `loadData`: with a response, its comments newest first, the room options rebuilt and
        the filter applied; without one, both lists emptied and the page left as it was. */
    method LoadData(response: Option<seq<StoredComment>>, form: Form)
      requires Valid()
      modifies this
      ensures Valid()
      ensures response.Some? ==>
                allComments == SortDesc(response.value)
                && roomOptions == RoomList(allComments)
                && roomSelection == RestoreSelection(old(roomSelection), roomOptions)
                && filteredComments == Filter(allComments, CriteriaOf(roomSelection, form))
                && currentPage == 1
      ensures response.None? ==>
                allComments == [] && filteredComments == [] && currentPage == old(currentPage)
                && roomOptions == old(roomOptions) && roomSelection == old(roomSelection)
    {
      if response.Some? {
        allComments := SortDesc(response.value);
        UpdateRoomOptions();
        ApplyFilters(form);
      } else {
        allComments := [];
        filteredComments := [];
      }
    }

    /** The user picks a room in the drop-down; nothing is filtered until the next
        reload or type change. */
    method SelectRoom(value: string)
      requires Valid() && (value == AllRooms || value in roomOptions)
      modifies this
      ensures Valid() && roomSelection == value
      ensures allComments == old(allComments) && filteredComments == old(filteredComments)
      ensures currentPage == old(currentPage) && roomOptions == old(roomOptions)
    {
      roomSelection := value;
    }

    /** The `prevPageBtn` handler. */
    method Prev()
      requires Valid()
      modifies this
      ensures Valid() && currentPage == PrevPage(old(currentPage))
      ensures allComments == old(allComments) && filteredComments == old(filteredComments)
      ensures roomSelection == old(roomSelection) && roomOptions == old(roomOptions)
    {
      if currentPage > 1 {
        currentPage := currentPage - 1;
      }
    }

    /** The `nextPageBtn` handler. */
    method Next()
      requires Valid()
      modifies this
      ensures Valid() && currentPage == NextPage(old(currentPage), |filteredComments|)
      ensures allComments == old(allComments) && filteredComments == old(filteredComments)
      ensures roomSelection == old(roomSelection) && roomOptions == old(roomOptions)
    {
      var maxPage := (|filteredComments| + PageSize - 1) / PageSize;
      if currentPage < maxPage {
        currentPage := currentPage + 1;
      }
    }

    /** The rows `renderTable` shows: none for an empty list, otherwise the current page's
        slice. */
    method PageRows() returns (rows: seq<StoredComment>)
      requires Valid()
      ensures rows == PageSlice(filteredComments, currentPage)
      ensures filteredComments != [] ==> rows != []
      ensures |rows| <= PageSize
    {
      if |filteredComments| == 0 {
        return [];
      }
      var startIdx := (currentPage - 1) * PageSize;
      var endIdx := if startIdx + PageSize < |filteredComments| then startIdx + PageSize else |filteredComments|;
      PageCountSpec(|filteredComments|);
      rows := filteredComments[startIdx..endIdx];
    }

    /** The export-csv button: it exports the filtered list, that is the comments the
        last filter accepted from the loaded list, in their order; nothing when that list
        is empty. */
    method ExportCsv(fmt: int -> string) returns (file: Option<string>)
      requires Valid()
      ensures file.None? <==> filteredComments == []
      ensures file.Some? ==> file.value == CsvHeader + CsvRows(Filter(allComments, applied), fmt)
    {
      file := ViewerQuery.ExportCsv(filteredComments, fmt);
    }

    /** `updatePaginationControls`: the page label's numbers and the two buttons' enabled
        states. */
    method PaginationControls() returns (page: nat, totalPages: nat, prevEnabled: bool, nextEnabled: bool)
      ensures page == currentPage && totalPages == TotalPages(|filteredComments|)
      ensures prevEnabled <==> currentPage > 1
      ensures nextEnabled <==> currentPage < totalPages
    {
      var count := (|filteredComments| + PageSize - 1) / PageSize;
      totalPages := if count == 0 then 1 else count;
      page := currentPage;
      prevEnabled := !(currentPage <= 1);
      nextEnabled := !(currentPage >= totalPages);
    }
  }
}

/**
 * The account service's response envelope: a success flag, an optional
 * message, paging, a data slot that grows from one value into a list as
 * items are added, and an optional error.
 */
module ApiResponse {
  import opened Wrappers

  /** The objects the data slot holds: a list, or any other value. */
  datatype Obj = Atom(text: string) | ListObj(items: seq<Obj>)

  datatype Page = Page(totalRecords: int, page: int, totalPages: int, pageSize: int)

  datatype ErrorInfo = ErrorInfo(code: Option<string>, message: Option<string>)

  /** What the data slot holds after `addData(item)`. */
  function AddedData(data: Option<Obj>, item: Obj): Obj {
    match data
    case None => item
    case Some(ListObj(xs)) => ListObj(xs + [item])
    case Some(other) => ListObj([other, item])
  }

  /** The values a data slot stands for: none, the list's elements, or the single value. */
  function Elements(data: Option<Obj>): seq<Obj> {
    match data
    case None => []
    case Some(ListObj(xs)) => xs
    case Some(other) => [other]
  }

  /** Once the slot holds something, `addData` appends the item to what it stands for. */
  lemma AddedDataAppends(data: Option<Obj>, item: Obj)
    requires data.Some?
    ensures AddedData(data, item).ListObj?
    ensures Elements(Some(AddedData(data, item))) == Elements(data) + [item]
  {
  }

  /** On an empty slot the item is stored as it is, not wrapped in a list. */
  lemma AddedDataFirst(item: Obj)
    ensures AddedData(None, item) == item
    ensures item.Atom? ==> Elements(Some(AddedData(None, item))) == [item]
  {
  }

  function AddAll(data: Option<Obj>, items: seq<Obj>): Option<Obj>
    decreases |items|
  {
    if items == [] then data else AddAll(Some(AddedData(data, items[0])), items[1..])
  }

  /** Adding values that are not lists one by one, starting from any slot, accumulates them in order. */
  lemma {:induction false} AddAllAccumulates(data: Option<Obj>, items: seq<Obj>)
    requires data.None? ==> items == [] || items[0].Atom?
    ensures Elements(AddAll(data, items)) == Elements(data) + items
    decreases |items|
  {
    if items == [] {
      assert Elements(data) + [] == Elements(data);
    } else {
      var next := Some(AddedData(data, items[0]));
      assert Elements(next) == Elements(data) + [items[0]];
      AddAllAccumulates(next, items[1..]);
      assert Elements(data) + [items[0]] + items[1..] == Elements(data) + items;
    }
  }

  class ApiResponseDto {
    var success: bool
    var message: Option<string>
    var paging: Option<Page>
    var data: Option<Obj>
    var error: Option<ErrorInfo>

    /** `ApiResponseDto()` */
    constructor ()
      ensures success && message.None? && paging.None? && data.None? && error.None?
    {
      success := true;
      message := None;
      paging := None;
      data := None;
      error := None;
    }

    /** `ApiResponseDto(String message)` */
    constructor WithMessage(message: Option<string>)
      ensures success && this.message == message && paging.None? && data.None? && error.None?
    {
      success := true;
      this.message := message;
      paging := None;
      data := None;
      error := None;
    }

    /** `ApiResponseDto(String message, List<T> data)` */
    constructor WithMessageAndData(message: Option<string>, data: Option<seq<Obj>>)
      ensures success && this.message == message && paging.None? && error.None?
      ensures this.data == if data.Some? then Some(ListObj(data.value)) else None
    {
      success := true;
      this.message := message;
      paging := None;
      this.data := if data.Some? then Some(ListObj(data.value)) else None;
      error := None;
    }

    /** `ApiResponseDto(List<T> data)` */
    constructor WithData(data: Option<seq<Obj>>)
      ensures success && message.None? && paging.None? && error.None?
      ensures this.data == if data.Some? then Some(ListObj(data.value)) else None
    {
      success := true;
      message := None;
      paging := None;
      this.data := if data.Some? then Some(ListObj(data.value)) else None;
      error := None;
    }

    /** `ApiResponseDto(String erroCode, String errorMessage)` */
    constructor Failure(errorCode: Option<string>, errorMessage: Option<string>)
      ensures !success && message.None? && paging.None? && data.None?
      ensures error == Some(ErrorInfo(errorCode, errorMessage))
    {
      success := false;
      message := None;
      paging := None;
      data := None;
      error := Some(ErrorInfo(errorCode, errorMessage));
    }

    /** `setPaging` */
    method SetPaging(totalCount: int, currentPage: int, pageCount: int, pageSize: int)
      modifies this
      ensures paging == Some(Page(totalCount, currentPage, pageCount, pageSize))
      ensures success == old(success) && message == old(message) && data == old(data) && error == old(error)
    {
      paging := Some(Page(totalCount, currentPage, pageCount, pageSize));
    }

    /** `addData` */
    method AddData(item: Obj)
      modifies this
      ensures data == Some(AddedData(old(data), item))
      ensures success == old(success) && message == old(message) && paging == old(paging) && error == old(error)
    {
      if data.None? {
        data := Some(item);
      } else if data.value.ListObj? {
        var safeList := data.value.items + [item];
        data := Some(ListObj(safeList));
      } else {
        var newList := [data.value, item];
        data := Some(ListObj(newList));
      }
    }
  }
}

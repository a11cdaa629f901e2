/**
 * The switch list page script (SwitchListApp): its state (current page
 * and filters), the query each load sends, the pagination it renders and
 * the information rows of a switch card.
 *
 * The DOM is modelled only by what the script reads from and writes to it:
 * the values of the two filter inputs, the page items it renders and the
 * requests it sends. Requests are recorded with their target and their
 * query parameters before URL encoding; the responses are not modelled.
 */
module SwitchList {
  import opened Wrappers
  import opened Text
  import opened Numbers
  import opened ListResponse

  /** `state.pageSize`. */
  const PageSize: int := 12

  /** The target used when the container names none. */
  const DefaultApiUrl: string := "/switches/api"

  /** One request the page sends. */
  datatype Request = Request(url: string, params: seq<(string, string)>)

  /** `this.state.apiUrl || '/switches/api'`. */
  function ApiTarget(apiUrl: string): (url: string)
    ensures url != []
    ensures apiUrl != [] ==> url == apiUrl
  {
    if apiUrl != [] then apiUrl else DefaultApiUrl
  }

  /** The query parameters of a load: page and size, then the type and the
    * keyword when they are non-empty (JavaScript truthiness). */
  function QueryParams(page: int, size: int, filterType: string, keyword: string): seq<(string, string)> {
    [("page", IntToString(page)), ("size", IntToString(size))]
    + (if filterType != [] then [("type", filterType)] else [])
    + (if keyword != [] then [("keyword", keyword)] else [])
  }

  /** Page and size are always sent first; the type is sent, with its
    * value, exactly when it is non-empty, and likewise the keyword; no key
    * is sent twice. */
  lemma QueryParamsShape(page: int, size: int, filterType: string, keyword: string)
    ensures var ps := QueryParams(page, size, filterType, keyword);
            && 2 <= |ps| <= 4
            && ps[0] == ("page", IntToString(page)) && ps[1] == ("size", IntToString(size))
            && (("type", filterType) in ps <==> filterType != [])
            && (("keyword", keyword) in ps <==> keyword != [])
            && (forall i :: 0 <= i < |ps| && ps[i].0 == "type" ==> ps[i].1 == filterType)
            && (forall i :: 0 <= i < |ps| && ps[i].0 == "keyword" ==> ps[i].1 == keyword)
            && (forall i, j :: 0 <= i < j < |ps| ==> ps[i].0 != ps[j].0)
  {
    var ps := QueryParams(page, size, filterType, keyword);
    var t := if filterType != [] then [("type", filterType)] else [];
    var k := if keyword != [] then [("keyword", keyword)] else [];
    assert ps == [("page", IntToString(page)), ("size", IntToString(size))] + t + k;
    assert forall i :: 2 <= i < 2 + |t| ==> ps[i] == ("type", filterType);
    assert forall i :: 2 + |t| <= i < |ps| ==> ps[i] == ("keyword", keyword);
    assert "page" != "type" && "page" != "keyword" && "size" != "type" && "size" != "keyword" && "type" != "keyword";
    assert "page" != "size";
  }

  /** What the page-data JSON of a response carries for the pagination. */
  datatype PageData = PageData(currentPage: int, totalPages: int, hasPrevious: bool, hasNext: bool)

  /** The text of a page link: a word, or a page number. */
  datatype Caption = Word(text: string) | PageNumber(n: int)

  /** A rendered `li.page-item`: its link text, its `active` and `disabled`
    * classes, and the page its click loads (`None`: no click handler). */
  datatype PageItem = PageItem(caption: Caption, active: bool, disabled: bool, onClick: Option<int>)

  /** `createPageItem(text, page, isActive, isDisabled)`: a disabled item
    * gets no click handler, any other one loads `page`. */
  function CreatePageItem(caption: Caption, page: int, isActive: bool, isDisabled: bool): (item: PageItem)
    ensures item.caption == caption && item.active == isActive && item.disabled == isDisabled
    ensures item.onClick.None? <==> isDisabled
    ensures item.onClick.Some? ==> item.onClick.value == page
  {
    PageItem(caption, isActive, isDisabled, if isDisabled then None else Some(page))
  }

  /** `Math.max(0, currentPage - 4)`. */
  function StartPage(currentPage: int): int {
    if currentPage - 4 > 0 then currentPage - 4 else 0
  }

  /** `Math.min(totalPages, startPage + 10)`. */
  function EndPage(currentPage: int, totalPages: int): int {
    if totalPages < StartPage(currentPage) + 10 then totalPages else StartPage(currentPage) + 10
  }

  /** The number of numbered items. */
  function WindowSize(currentPage: int, totalPages: int): (n: nat) {
    if EndPage(currentPage, totalPages) > StartPage(currentPage)
    then EndPage(currentPage, totalPages) - StartPage(currentPage) else 0
  }

  /** At most ten numbered pages, all within [0, totalPages); the current
    * page is among them whenever it is a page of the result. */
  lemma WindowBounds(currentPage: int, totalPages: int)
    ensures WindowSize(currentPage, totalPages) <= 10
    ensures 0 <= StartPage(currentPage)
    ensures WindowSize(currentPage, totalPages) > 0 ==>
              StartPage(currentPage) + WindowSize(currentPage, totalPages) <= totalPages
    ensures 0 <= currentPage < totalPages ==>
              StartPage(currentPage) <= currentPage < StartPage(currentPage) + WindowSize(currentPage, totalPages)
  {
  }

  /** The item for numbered page `p`. */
  function NumberedItem(p: int, currentPage: int): PageItem {
    CreatePageItem(PageNumber(p + 1), p, p == currentPage, false)
  }

  /** The '이전' item: it loads the previous page unless there is none. */
  function PreviousItem(data: PageData): PageItem {
    CreatePageItem(Word("이전"), data.currentPage - 1, false, !data.hasPrevious)
  }

  /** The '다음' item: it loads the next page unless there is none. */
  function NextItem(data: PageData): PageItem {
    CreatePageItem(Word("다음"), data.currentPage + 1, false, !data.hasNext)
  }

  /** The items the pagination list ends up holding: nothing for a single
    * page, otherwise '이전', the numbered window, '다음'. */
  function Pagination(data: PageData): seq<PageItem> {
    if data.totalPages <= 1 then []
    else
      var start := StartPage(data.currentPage);
      [PreviousItem(data)]
      + seq(WindowSize(data.currentPage, data.totalPages), k => NumberedItem(start + k, data.currentPage))
      + [NextItem(data)]
  }

  /** At most twelve items; an item is active exactly when it is the
    * current page's number; each number lies within the result's pages
    * and loads its own page; the current page, when it is a page of the
    * result, is shown. */
  lemma PaginationShape(data: PageData)
    ensures var items := Pagination(data);
            && |items| <= 12
            && (data.totalPages > 1 ==> items[0] == PreviousItem(data) && items[|items| - 1] == NextItem(data))
            && (forall k :: 0 <= k < |items| ==> (items[k].active <==> items[k].caption == PageNumber(data.currentPage + 1)))
            && (forall k :: 0 <= k < |items| && items[k].caption.PageNumber? ==>
                  1 <= items[k].caption.n <= data.totalPages && items[k].onClick == Some(items[k].caption.n - 1))
            && (data.totalPages > 1 && 0 <= data.currentPage < data.totalPages ==>
                  exists k :: 0 <= k < |items| && items[k].caption == PageNumber(data.currentPage + 1))
  {
    var items := Pagination(data);
    if data.totalPages > 1 {
      WindowBounds(data.currentPage, data.totalPages);
      var start := StartPage(data.currentPage);
      var n := WindowSize(data.currentPage, data.totalPages);
      assert |items| == n + 2;
      forall k | 0 <= k < |items|
        ensures items[k].active <==> items[k].caption == PageNumber(data.currentPage + 1)
        ensures items[k].caption.PageNumber? ==>
                  1 <= items[k].caption.n <= data.totalPages && items[k].onClick == Some(items[k].caption.n - 1)
      {
        if 0 < k <= n {
          assert items[k] == NumberedItem(start + (k - 1), data.currentPage);
        }
      }
      if 0 <= data.currentPage < data.totalPages {
        assert items[data.currentPage - start + 1] == NumberedItem(data.currentPage, data.currentPage);
      }
    }
  }

  /** `renderPagination(data)`: the items appended to the pagination list. */
  method RenderPagination(data: PageData) returns (items: seq<PageItem>)
    ensures items == Pagination(data)
  {
    if data.totalPages <= 1 {
      return [];
    }
    items := [PreviousItem(data)];
    var startPage := if data.currentPage - 4 > 0 then data.currentPage - 4 else 0;
    var endPage := if data.totalPages < startPage + 10 then data.totalPages else startPage + 10;
    ghost var n := WindowSize(data.currentPage, data.totalPages);
    var i := startPage;
    while i < endPage
      invariant startPage <= i <= startPage + n
      invariant |items| == 1 + (i - startPage)
      invariant items[0] == PreviousItem(data)
      invariant forall k :: 1 <= k < |items| ==> items[k] == NumberedItem(startPage + k - 1, data.currentPage)
    {
      items := items + [NumberedItem(i, data.currentPage)];
      i := i + 1;
    }
    items := items + [NextItem(data)];
    assert i == startPage + n;
  }

  /** A value as the card template sees it. */
  datatype JsValue = Null | Str(s: string) | Num(n: int)

  /** JavaScript truthiness: null, '' and 0 are falsy. */
  predicate Truthy(v: JsValue) {
    match v
    case Null => false
    case Str(s) => s != []
    case Num(n) => n != 0
  }

  /** `${value}` for a truthy value. */
  function Display(v: JsValue): string {
    match v
    case Null => "null"
    case Str(s) => s
    case Num(n) => IntToString(n)
  }

  const RowOpen: string := "<div class=\"switch-info-row\">\n                    <span class=\"switch-info-label\">"
  const RowMiddle: string := "</span>\n                    <span>"
  const RowClose: string := "</span>\n                </div>"

  /** `createInfoRow(label, value, suffix)`. */
  function CreateInfoRow(title: string, value: JsValue, suffix: string): (html: string)
    ensures html == [] <==> !Truthy(value)
  {
    if !Truthy(value) then "" else RowOpen + (title + ":") + RowMiddle + (Display(value) + suffix) + RowClose
  }

  /** A shown row carries the label followed by ':', and the value followed
    * by the suffix. */
  lemma InfoRowShows(title: string, value: JsValue, suffix: string)
    requires Truthy(value)
    ensures Contains(CreateInfoRow(title, value, suffix), title + ":")
    ensures Contains(CreateInfoRow(title, value, suffix), Display(value) + suffix)
  {
    FieldsShown(RowOpen, title + ":", RowMiddle, Display(value) + suffix, RowClose);
  }

  /** A template `a b c d e` shows its fields `b` and `d`. */
  lemma FieldsShown(a: string, b: string, c: string, d: string, e: string)
    ensures Contains(a + b + c + d + e, b) && Contains(a + b + c + d + e, d)
  {
    var s := a + b + c + d + e;
    assert s[|a|..|a| + |b|] == b;
    ContainsAt(s, b, |a|);
    assert s[|a + b + c|..|a + b + c| + |d|] == d;
    ContainsAt(s, d, |a + b + c|);
  }

  function OfText(s: Option<string>): JsValue {
    if s.None? then Null else Str(s.value)
  }

  function OfNumber(n: Option<int>): JsValue {
    if n.None? then Null else Num(n.value)
  }

  /** The information rows of a card: manufacturer, category, the two
    * forces in grams and the price in won, in that order. */
  function InfoHtml(sw: SwitchListResponse): string {
    CreateInfoRow("제조사", OfText(sw.manufacturer), "")
    + CreateInfoRow("카테고리", OfText(sw.category), "")
    + CreateInfoRow("작동압", OfNumber(sw.actuationForce), "g")
    + CreateInfoRow("바닥압", OfNumber(sw.bottomOutForce), "g")
    + CreateInfoRow("가격", OfNumber(sw.price), "원")
  }

  /** A card has no information rows exactly when all five values are
    * falsy; a price, or a force, of 0 is not shown. */
  lemma InfoHtmlEmpty(sw: SwitchListResponse)
    ensures InfoHtml(sw) == [] <==>
              && !Truthy(OfText(sw.manufacturer)) && !Truthy(OfText(sw.category))
              && !Truthy(OfNumber(sw.actuationForce)) && !Truthy(OfNumber(sw.bottomOutForce))
              && !Truthy(OfNumber(sw.price))
    ensures sw.price == Some(0) ==> CreateInfoRow("가격", OfNumber(sw.price), "원") == []
  {
  }

  /** The page script's state and the DOM values it reads and writes. */
  class SwitchListApp {
    var currentPage: int
    var filterType: string
    var filterKeyword: string
    var apiUrl: string
    /** The values of the type select and the keyword input. */
    var typeInput: string
    var keywordInput: string
    /** The requests sent so far, oldest first. */
    var sent: seq<Request>

    /** The initial `state` before `init()`. */
    constructor ()
      ensures currentPage == 0 && filterType == [] && filterKeyword == [] && apiUrl == []
      ensures typeInput == [] && keywordInput == [] && sent == []
    {
      currentPage, filterType, filterKeyword, apiUrl := 0, [], [], [];
      typeInput, keywordInput, sent := [], [], [];
    }

    /** The request a load of `page` sends in the current state. */
    function RequestFor(page: int): Request
      reads this
    {
      Request(ApiTarget(apiUrl), QueryParams(page, PageSize, filterType, filterKeyword))
    }

    /** `loadSwitches(page)`, up to the request it sends. */
    method LoadSwitches(page: int)
      modifies this
      ensures currentPage == page
      ensures sent == old(sent) + [old(RequestFor(page))]
      ensures filterType == old(filterType) && filterKeyword == old(filterKeyword) && apiUrl == old(apiUrl)
      ensures typeInput == old(typeInput) && keywordInput == old(keywordInput)
    {
      currentPage := page;
      var params := [("page", IntToString(page)), ("size", IntToString(PageSize))];
      if filterType != [] {
        params := params + [("type", filterType)];
      }
      if filterKeyword != [] {
        params := params + [("keyword", filterKeyword)];
      }
      var targetUrl := if apiUrl != [] then apiUrl else DefaultApiUrl;
      assert params == QueryParams(page, PageSize, filterType, filterKeyword);
      sent := sent + [Request(targetUrl, params)];
    }

    /** `searchSwitches()`: the input values become the filters and the
      * first page is loaded. */
    method SearchSwitches()
      modifies this
      ensures filterType == old(typeInput) && filterKeyword == old(keywordInput)
      ensures currentPage == 0
      ensures sent == old(sent) + [Request(ApiTarget(apiUrl), QueryParams(0, PageSize, old(typeInput), old(keywordInput)))]
      ensures typeInput == old(typeInput) && keywordInput == old(keywordInput) && apiUrl == old(apiUrl)
    {
      filterType := typeInput;
      filterKeyword := keywordInput;
      LoadSwitches(0);
    }

    /** `resetFilters()`: inputs and filters are cleared and the first page
      * is loaded without type or keyword. */
    method ResetFilters()
      modifies this
      ensures typeInput == [] && keywordInput == [] && filterType == [] && filterKeyword == []
      ensures currentPage == 0
      ensures sent == old(sent) + [Request(ApiTarget(apiUrl), [("page", "0"), ("size", "12")])]
      ensures apiUrl == old(apiUrl)
    {
      typeInput := [];
      keywordInput := [];
      filterType, filterKeyword := [], [];
      LoadSwitches(0);
      PageZeroParams();
    }

    /** `readUrlParams()`: a non-empty `type` or `keyword` parameter of the
      * page URL is copied into the filter and its input. */
    method ReadUrlParams(typeParam: Option<string>, keywordParam: Option<string>)
      modifies this
      ensures typeParam.Some? && typeParam.value != [] ==> filterType == typeParam.value && typeInput == typeParam.value
      ensures !(typeParam.Some? && typeParam.value != []) ==> filterType == old(filterType) && typeInput == old(typeInput)
      ensures keywordParam.Some? && keywordParam.value != [] ==>
                filterKeyword == keywordParam.value && keywordInput == keywordParam.value
      ensures !(keywordParam.Some? && keywordParam.value != []) ==>
                filterKeyword == old(filterKeyword) && keywordInput == old(keywordInput)
      ensures currentPage == old(currentPage) && apiUrl == old(apiUrl) && sent == old(sent)
    {
      if typeParam.Some? && typeParam.value != [] {
        filterType := typeParam.value;
        typeInput := typeParam.value;
      }
      if keywordParam.Some? && keywordParam.value != [] {
        filterKeyword := keywordParam.value;
        keywordInput := keywordParam.value;
      }
    }

    /** `init()`: URL parameters, then the container's API URL (`None`
      * when there is no container; an absent attribute reads as empty),
      * then the first page. */
    method Init(typeParam: Option<string>, keywordParam: Option<string>, containerApiUrl: Option<string>)
      modifies this
      ensures typeParam.Some? && typeParam.value != [] ==> filterType == typeParam.value && typeInput == typeParam.value
      ensures !(typeParam.Some? && typeParam.value != []) ==> filterType == old(filterType) && typeInput == old(typeInput)
      ensures keywordParam.Some? && keywordParam.value != [] ==>
                filterKeyword == keywordParam.value && keywordInput == keywordParam.value
      ensures !(keywordParam.Some? && keywordParam.value != []) ==>
                filterKeyword == old(filterKeyword) && keywordInput == old(keywordInput)
      ensures containerApiUrl.Some? ==> apiUrl == containerApiUrl.value
      ensures containerApiUrl.None? ==> apiUrl == old(apiUrl)
      ensures currentPage == 0
      ensures |sent| == |old(sent)| + 1 && sent[..|old(sent)|] == old(sent)
      ensures sent[|old(sent)|] == RequestFor(0)
    {
      ReadUrlParams(typeParam, keywordParam);
      if containerApiUrl.Some? {
        apiUrl := containerApiUrl.value;
      }
      LoadSwitches(0);
    }
  }

  /** The query of an unfiltered first page. */
  lemma PageZeroParams()
    ensures QueryParams(0, PageSize, [], []) == [("page", "0"), ("size", "12")]
  {
    assert NatToDigits(1) == "1";
    assert NatToDigits(12) == NatToDigits(1) + "2";
    assert IntToString(12) == "12";
    assert IntToString(0) == "0";
  }
}

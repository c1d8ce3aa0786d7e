/**
 * The two read-only usage routes: `GET /agent/usage` (one conversation's
 * recorded turns, a page at a time) and `GET /agent/conversations` (the
 * conversation summaries, a page at a time). Both validate their paging
 * parameters and turn a page number into an SQL offset.
 */
module UsageRoutes {
  import opened Common
  import opened PyText
  import opened UsageLedger

  /**
   * What a route hands back: a body, an `HTTPException` with its status and
   * detail, or an exception the route does not catch (FastAPI then answers
   * 500 without a detail).
   */
  datatype RouteResult<+T> = Served(body: T) | Rejected(status: int, detail: string) | Crashed(exception: string)

  /** The body of `GET /agent/usage`. */
  datatype UsagePage = UsagePage(conversationId: string, page: int, pageSize: int,
                                 total: int, items: seq<TurnUsageRow>)

  /** The body of `GET /agent/conversations`. */
  datatype ConversationsPage = ConversationsPage(page: int, pageSize: int, total: int,
                                                 items: seq<ConversationSummary>)

  const MaxPageSize := 200

  /** The paging parameters both routes accept. */
  predicate ValidPaging(page: int, pageSize: int)
  {
    1 <= page && 1 <= pageSize <= MaxPageSize
  }

  /** The 400 detail for bad paging parameters; the page is checked first. */
  function PagingError(page: int, pageSize: int): (r: Option<string>)
    ensures r.None? <==> ValidPaging(page, pageSize)
    ensures page < 1 ==> r == Some("page must be >= 1")
    ensures 1 <= page && !(1 <= pageSize <= MaxPageSize) ==> r == Some("page_size must be between 1 and 200")
  {
    if page < 1 then Some("page must be >= 1")
    else if pageSize < 1 || pageSize > MaxPageSize then Some("page_size must be between 1 and 200")
    else None
  }

  /** The offset of a page: the rows of the pages before it. */
  function PageOffset(page: int, pageSize: int): (offset: int)
    requires ValidPaging(page, pageSize)
    ensures 0 <= offset
  {
    (page - 1) * pageSize
  }

  /**
   * `agent_usage`. Each listed row is turned into an item that reads the
   * row's `model_name`, an attribute `TurnUsageRow` does not have: any
   * page that holds a row raises `AttributeError`, and only pages past the
   * last row are answered. An offset too large for SQLite raises
   * `OverflowError` when the page query binds it.
   */
  function AgentUsage(rows: seq<Row>, conversationId: string, page: int, pageSize: int): (r: RouteResult<UsagePage>)
    ensures Strip(conversationId) == [] ==> r == Rejected(400, "conversation_id is required")
    ensures Strip(conversationId) != [] && !ValidPaging(page, pageSize) ==>
      r == Rejected(400, PagingError(page, pageSize).value)
    ensures r.Served? ==>
      && ValidPaging(page, pageSize)
      && r.body == UsagePage(Strip(conversationId), page, pageSize,
                             CountTurnUsage(rows, Strip(conversationId)), [])
    ensures Strip(conversationId) != [] && ValidPaging(page, pageSize) && PageOffset(page, pageSize) > MaxSqlInteger ==>
      r == Crashed("OverflowError")
    ensures r.Crashed? ==> r.exception == "AttributeError" || r.exception == "OverflowError"
  {
    var cid := Strip(conversationId);
    if cid == [] then Rejected(400, "conversation_id is required")
    else if PagingError(page, pageSize).Some? then Rejected(400, PagingError(page, pageSize).value)
    else
      var total := CountTurnUsage(rows, cid);
      var offset := PageOffset(page, pageSize);
      if offset > MaxSqlInteger then Crashed("OverflowError")
      else
        var listed := ListTurnUsagePage(rows, cid, pageSize, offset);
        if listed != [] then Crashed("AttributeError")
        else Served(UsagePage(cid, page, pageSize, total, []))
  }

  /**
   * With valid parameters, `agent_usage` answers exactly for the pages
   * that start at or after the conversation's last row (with an offset
   * SQLite can bind), and fails on every other page.
   */
  lemma UsageAnsweredIffPastEnd(rows: seq<Row>, conversationId: string, page: int, pageSize: int)
    requires Strip(conversationId) != [] && ValidPaging(page, pageSize)
    ensures AgentUsage(rows, conversationId, page, pageSize).Served?
        <==> CountTurnUsage(rows, Strip(conversationId)) <= PageOffset(page, pageSize) <= MaxSqlInteger
    ensures !AgentUsage(rows, conversationId, page, pageSize).Served? ==>
        AgentUsage(rows, conversationId, page, pageSize)
          == Crashed(if PageOffset(page, pageSize) > MaxSqlInteger then "OverflowError" else "AttributeError")
  {
    var cid := Strip(conversationId);
    SummaryMatchesList(rows, cid);
  }

  /** Two recorded turns: their first page is not answered but fails. */
  lemma UsageCrashExample(t1: string, t2: string)
    ensures AgentUsage(ExampleRows(t1, t2), "conv-1", 1, 20) == Crashed("AttributeError")
  {
    var rows := ExampleRows(t1, t2);
    assert LStrip("conv-1") == "conv-1";
    assert RStrip("conv-1") == "conv-1";
    ExampleRowsOf(t1, t2);
    assert PageOffset(1, 20) == 0;
    UsageAnsweredIffPastEnd(rows, "conv-1", 1, 20);
  }

  /**
   * `agent_usage` as evidently intended: each item carries the listed row's
   * own fields (there is no model name to report), so every page is served.
   */
  function AgentUsageCorrected(rows: seq<Row>, conversationId: string, page: int, pageSize: int): (r: RouteResult<UsagePage>)
    ensures Strip(conversationId) == [] ==> r == Rejected(400, "conversation_id is required")
    ensures Strip(conversationId) != [] && !ValidPaging(page, pageSize) ==>
      r == Rejected(400, PagingError(page, pageSize).value)
    ensures Strip(conversationId) != [] && ValidPaging(page, pageSize) ==>
      if PageOffset(page, pageSize) <= MaxSqlInteger then r.Served? else r == Crashed("OverflowError")
    ensures r.Served? ==> var cid := Strip(conversationId); var all := TurnRows(rows, cid);
      var s := PageOffset(page, pageSize);
      && r.body.conversationId == cid && r.body.page == page && r.body.pageSize == pageSize
      && r.body.total == |all|
      && |r.body.items| == (if s <= |all| then Min(pageSize, |all| - s) else 0)
      && (forall i | 0 <= i < |r.body.items| :: r.body.items[i] == Public(all[s + i]))
  {
    var cid := Strip(conversationId);
    if cid == [] then Rejected(400, "conversation_id is required")
    else if PagingError(page, pageSize).Some? then Rejected(400, PagingError(page, pageSize).value)
    else if PageOffset(page, pageSize) > MaxSqlInteger then Crashed("OverflowError")
    else
      SummaryMatchesList(rows, cid);
      Served(UsagePage(cid, page, pageSize, CountTurnUsage(rows, cid),
                       ListTurnUsagePage(rows, cid, pageSize, PageOffset(page, pageSize))))
  }

  /** Where the route as written answers, the corrected one gives the same answer. */
  lemma CorrectedAgreesWhereServed(rows: seq<Row>, conversationId: string, page: int, pageSize: int)
    requires !AgentUsage(rows, conversationId, page, pageSize).Crashed?
    ensures AgentUsageCorrected(rows, conversationId, page, pageSize) == AgentUsage(rows, conversationId, page, pageSize)
  {
  }

  /**
   * With the correction, paging through a conversation visits each turn:
   * the `i`-th row in turn order is item `i % pageSize` of page `i / pageSize + 1`.
   * (A SQLite table holds fewer than 2^63 rows, so every such offset binds.)
   */
  lemma EveryTurnOnItsPage(rows: seq<Row>, conversationId: string, pageSize: int, i: int) returns (page: int, j: int)
    requires Strip(conversationId) != [] && 1 <= pageSize <= MaxPageSize && |rows| <= MaxSqlInteger
    requires 0 <= i < |TurnRows(rows, Strip(conversationId))|
    ensures page == i / pageSize + 1 && j == i % pageSize
    ensures var r := AgentUsageCorrected(rows, conversationId, page, pageSize);
      && r.Served?
      && j < |r.body.items|
      && r.body.items[j] == Public(TurnRows(rows, Strip(conversationId))[i])
  {
    page, j := PageOfPosition(i, pageSize);
  }

  /** `agent_conversations`: the requested page of summaries and their count. */
  function AgentConversations(rows: seq<Row>, page: int, pageSize: int): (r: RouteResult<ConversationsPage>)
    ensures !ValidPaging(page, pageSize) ==> r == Rejected(400, PagingError(page, pageSize).value)
    ensures ValidPaging(page, pageSize) ==>
      if PageOffset(page, pageSize) <= MaxSqlInteger then r.Served? else r == Crashed("OverflowError")
    ensures r.Served? ==> var all := Conversations(rows); var s := PageOffset(page, pageSize);
      && r.body.page == page && r.body.pageSize == pageSize
      && r.body.total == |all|
      && |r.body.items| == (if s <= |all| then Min(pageSize, |all| - s) else 0)
      && (forall i | 0 <= i < |r.body.items| :: r.body.items[i] == all[s + i])
  {
    if PagingError(page, pageSize).Some? then Rejected(400, PagingError(page, pageSize).value)
    else if PageOffset(page, pageSize) > MaxSqlInteger then Crashed("OverflowError")
    else
      var offset := PageOffset(page, pageSize);
      ConversationsPageAt(rows, pageSize, offset);
      Served(ConversationsPage(page, pageSize, CountConversations(rows), ListConversationsPage(rows, pageSize, offset)))
  }

  /** A page of summaries with a non-negative limit and offset, element by element. */
  lemma ConversationsPageAt(rows: seq<Row>, limit: int, offset: int)
    requires 0 <= limit && 0 <= offset
    ensures var r, all := ListConversationsPage(rows, limit, offset), Conversations(rows);
      && |r| == (if offset <= |all| then Min(limit, |all| - offset) else 0)
      && forall i | 0 <= i < |r| :: r[i] == all[offset + i]
  {
    WindowAt(Conversations(rows), limit, offset);
  }

  /** A window with a non-negative limit and offset, element by element. */
  lemma WindowAt<T>(xs: seq<T>, limit: int, offset: int)
    requires 0 <= limit && 0 <= offset
    ensures var r := Window(xs, limit, offset);
      && |r| == (if offset <= |xs| then Min(limit, |xs| - offset) else 0)
      && forall i | 0 <= i < |r| :: r[i] == xs[offset + i]
  {
  }

  /** Position `i` falls on page `i / pageSize + 1`, as its item `i % pageSize`. */
  lemma PageOfPosition(i: int, pageSize: int) returns (page: int, j: int)
    requires 0 <= i && 1 <= pageSize <= MaxPageSize
    ensures page == i / pageSize + 1 && j == i % pageSize
    ensures ValidPaging(page, pageSize) && 0 <= j < pageSize && PageOffset(page, pageSize) + j == i
  {
    page, j := i / pageSize + 1, i % pageSize;
    assert PageOffset(page, pageSize) == (i / pageSize) * pageSize;
  }

  /** Item `j` of a page exists when the position it stands for does. */
  lemma PageHoldsItem(rows: seq<Row>, pageSize: int, page: int, j: int, i: int)
    requires ValidPaging(page, pageSize) && 0 <= j < pageSize && PageOffset(page, pageSize) + j == i
    requires 0 <= i < |Conversations(rows)| && i <= MaxSqlInteger
    ensures var r := AgentConversations(rows, page, pageSize); r.Served? && j < |r.body.items|
  {
    var r := AgentConversations(rows, page, pageSize);
    var s, all := PageOffset(page, pageSize), Conversations(rows);
    assert r.Served?;
    assert s <= |all| && |r.body.items| == Min(pageSize, |all| - s);
  }

  /** Item `j` of a page is the conversation at the position it stands for. */
  lemma PageItemIsConversation(rows: seq<Row>, pageSize: int, page: int, j: int, i: int)
    requires ValidPaging(page, pageSize) && 0 <= j < pageSize && PageOffset(page, pageSize) + j == i
    requires 0 <= i < |Conversations(rows)|
    requires var r := AgentConversations(rows, page, pageSize); r.Served? && j < |r.body.items|
    ensures AgentConversations(rows, page, pageSize).body.items[j] == Conversations(rows)[i]
  {
  }

  /**
   * Paging through the conversations visits each one: the `i`-th
   * conversation, in the model's order of ties, is item `i % pageSize` of
   * page `i / pageSize + 1`. (A SQLite table holds fewer than 2^63 rows, so
   * every such offset binds.)
   */
  lemma EveryConversationOnItsPage(rows: seq<Row>, pageSize: int, i: int) returns (page: int, j: int)
    requires 1 <= pageSize <= MaxPageSize && |rows| <= MaxSqlInteger && 0 <= i < |Conversations(rows)|
    ensures page == i / pageSize + 1 && j == i % pageSize
    ensures var r := AgentConversations(rows, page, pageSize);
      && r.Served?
      && j < |r.body.items|
      && r.body.items[j] == Conversations(rows)[i]
  {
    page, j := PageOfPosition(i, pageSize);
    PageHoldsItem(rows, pageSize, page, j, i);
    PageItemIsConversation(rows, pageSize, page, j, i);
  }
}

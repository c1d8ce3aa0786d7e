/**
 * The token-usage ledger (`conversation_turn_usage`): one row per recorded
 * turn, with an auto-increment id. Recording appends a row; the queries are
 * filters, orderings, windows and sums over the rows.
 */
module UsageLedger {
  import opened Common
  import opened Normalizer
  import opened Sorting

  /** A table row. `createdAt` is the ISO timestamp string the clock supplied. */
  datatype Row = Row(id: int, conversationId: string, turnIndex: int,
                     input: int, output: int, total: int, createdAt: string)

  /** A row as the list queries return it (without its id). */
  datatype TurnUsageRow = TurnUsageRow(conversationId: string, turnIndex: int,
                                       input: int, output: int, total: int, createdAt: string)

  datatype ConversationSummary = ConversationSummary(conversationId: string, turns: int,
                                                     totalTokens: int, lastCreatedAt: string)

  datatype UsageSummary = UsageSummary(turns: int, input: int, output: int, total: int)

  /** The three token counts `record_turn_usage` stores for a usage dictionary. */
  datatype Counts = Counts(input: int, output: int, total: int)

  /**
   * Missing input and output default to 0; a missing total defaults to
   * their sum, while a given total is stored as given.
   */
  function CountsOf(usage: Usage): (c: Counts)
    ensures usage.input.Some? ==> c.input == usage.input.value
    ensures usage.input.None? ==> c.input == 0
    ensures usage.output.Some? ==> c.output == usage.output.value
    ensures usage.output.None? ==> c.output == 0
    ensures usage.total.Some? ==> c.total == usage.total.value
    ensures usage.total.None? ==> c.total == c.input + c.output
  {
    var i := if usage.input.Some? then usage.input.value else 0;
    var o := if usage.output.Some? then usage.output.value else 0;
    Counts(i, o, if usage.total.Some? then usage.total.value else i + o)
  }

  // ---------------------------------------------------------------------------
  // Filtering, windows and sums

  /** `WHERE conversation_id = cid`, in table order. */
  function RowsOf(rows: seq<Row>, cid: string): (r: seq<Row>)
    ensures |r| <= |rows|
    ensures forall x | x in r :: x in rows && x.conversationId == cid
    ensures forall x | x in rows && x.conversationId == cid :: x in r
  {
    if rows == [] then []
    else
      var last := rows[|rows| - 1];
      assert rows == rows[..|rows| - 1] + [last];
      RowsOf(rows[..|rows| - 1], cid) + (if last.conversationId == cid then [last] else [])
  }

  /** Appending a row adds it to its own conversation's rows only. */
  lemma RowsOfAppend(rows: seq<Row>, x: Row, cid: string)
    ensures RowsOf(rows + [x], cid) == RowsOf(rows, cid) + (if x.conversationId == cid then [x] else [])
  {
    assert (rows + [x])[..|rows|] == rows;
  }

  function Min(a: int, b: int): int
  {
    if a <= b then a else b
  }

  /**
   * The largest integer SQLite stores: binding a larger Python integer as a
   * query parameter raises `OverflowError` before the query runs.
   */
  const MaxSqlInteger: int := 0x7fff_ffff_ffff_ffff

  /** Where `OFFSET offset` starts: SQLite reads a negative offset as 0. */
  function Start(n: int, offset: int): (s: int)
    requires 0 <= n
    ensures 0 <= s <= n
  {
    if offset < 0 then 0 else Min(offset, n)
  }

  /**
   * `LIMIT limit OFFSET offset`: the window of at most `limit` elements that
   * starts at `offset`; SQLite reads a negative limit as no limit.
   */
  function Window<T>(xs: seq<T>, limit: int, offset: int): (r: seq<T>)
    ensures var s := Start(|xs|, offset);
      && s + |r| <= |xs|
      && r == xs[s..s + |r|]
      && (limit >= 0 ==> |r| == Min(limit, |xs| - s))
      && (limit < 0 ==> |r| == |xs| - s)
  {
    var rest := xs[Start(|xs|, offset)..];
    if limit < 0 || limit >= |rest| then rest else rest[..limit]
  }

  datatype Column = InputColumn | OutputColumn | TotalColumn

  function Cell(x: Row, col: Column): int
  {
    match col
    case InputColumn => x.input
    case OutputColumn => x.output
    case TotalColumn => x.total
  }

  /** `COALESCE(SUM(col), 0)`. */
  function SumOf(rs: seq<Row>, col: Column): int
  {
    if rs == [] then 0 else SumOf(rs[..|rs| - 1], col) + Cell(rs[|rs| - 1], col)
  }

  lemma {:induction false} SumOfAppend(a: seq<Row>, b: seq<Row>, col: Column)
    ensures SumOf(a + b, col) == SumOf(a, col) + SumOf(b, col)
  {
    if b == [] {
      assert a + b == a;
    } else {
      assert (a + b)[..|a + b| - 1] == a + b[..|b| - 1];
      SumOfAppend(a, b[..|b| - 1], col);
    }
  }

  /** Taking out position `k` takes its cell out of the sum. */
  lemma SumOfRemoveAt(b: seq<Row>, k: int, col: Column)
    requires 0 <= k < |b|
    ensures SumOf(b, col) == SumOf(b[..k] + b[k + 1..], col) + Cell(b[k], col)
  {
    assert b == b[..k] + [b[k]] + b[k + 1..];
    SumOfAppend(b[..k], [b[k]], col);
    SumOfAppend(b[..k] + [b[k]], b[k + 1..], col);
    SumOfAppend(b[..k], b[k + 1..], col);
    assert SumOf([b[k]], col) == Cell(b[k], col);
  }

  /** A sum does not depend on the order of the rows. */
  lemma {:induction false} SumOfPermutation(a: seq<Row>, b: seq<Row>, col: Column)
    requires multiset(a) == multiset(b)
    ensures SumOf(a, col) == SumOf(b, col)
  {
    if a != [] {
      var a' := a[..|a| - 1];
      var k := MatchLast(a, b);
      SumOfPermutation(a', b[..k] + b[k + 1..], col);
      SumOfRemoveAt(b, k, col);
      SumOfAppend(a', [a[|a| - 1]], col);
      assert a == a' + [a[|a| - 1]];
    }
  }

  // ---------------------------------------------------------------------------
  // Per-conversation queries

  /** `ORDER BY turn_index ASC, id ASC`. */
  predicate TurnBefore(a: Row, b: Row)
  {
    a.turnIndex < b.turnIndex || (a.turnIndex == b.turnIndex && a.id <= b.id)
  }

  lemma TurnBeforeOrders()
    ensures Total(TurnBefore) && Transitive(TurnBefore)
  {
  }

  /** A conversation's rows in the order the list queries return them. */
  function TurnRows(rows: seq<Row>, cid: string): (r: seq<Row>)
    ensures multiset(r) == multiset(RowsOf(rows, cid))
    ensures |r| == CountTurnUsage(rows, cid)
    ensures SortedBy(r, TurnBefore)
  {
    TurnBeforeOrders();
    SortSorted(RowsOf(rows, cid), TurnBefore);
    Sort(RowsOf(rows, cid), TurnBefore)
  }

  function Public(x: Row): TurnUsageRow
  {
    TurnUsageRow(x.conversationId, x.turnIndex, x.input, x.output, x.total, x.createdAt)
  }

  function PublicRows(rs: seq<Row>): (r: seq<TurnUsageRow>)
    ensures |r| == |rs|
    ensures forall i | 0 <= i < |rs| :: r[i] == Public(rs[i])
  {
    if rs == [] then [] else PublicRows(rs[..|rs| - 1]) + [Public(rs[|rs| - 1])]
  }

  /** `list_turn_usage_page`. */
  function ListTurnUsagePage(rows: seq<Row>, cid: string, limit: int, offset: int): (r: seq<TurnUsageRow>)
    ensures var all := TurnRows(rows, cid); var s := Start(|all|, offset);
      && s + |r| <= |all|
      && (forall i | 0 <= i < |r| :: r[i] == Public(all[s + i]))
      && (limit >= 0 ==> |r| == Min(limit, |all| - s))
      && (limit < 0 ==> |r| == |all| - s)
  {
    PublicRows(Window(TurnRows(rows, cid), limit, offset))
  }

  /** `list_turn_usage`: the first page of at most `limit` rows. */
  function ListTurnUsage(rows: seq<Row>, cid: string, limit: int): (r: seq<TurnUsageRow>)
    ensures r == ListTurnUsagePage(rows, cid, limit, 0)
  {
    PublicRows(Window(TurnRows(rows, cid), limit, 0))
  }

  /** `count_turn_usage`. */
  function CountTurnUsage(rows: seq<Row>, cid: string): (n: nat)
    ensures n <= |rows|
    ensures n == 0 <==> forall x | x in rows :: x.conversationId != cid
  {
    var rs := RowsOf(rows, cid);
    assert rs != [] ==> rs[0] in rs;
    |rs|
  }

  /** `summarize_usage`: the row count and the column sums of a conversation. */
  function SummarizeUsage(rows: seq<Row>, cid: string): (r: UsageSummary)
    ensures r.turns == CountTurnUsage(rows, cid)
    ensures r.turns == 0 ==> r == UsageSummary(0, 0, 0, 0)
  {
    var rs := RowsOf(rows, cid);
    UsageSummary(|rs|, SumOf(rs, InputColumn), SumOf(rs, OutputColumn), SumOf(rs, TotalColumn))
  }

  /**
   * The count is the number of rows the list queries return, and the
   * summary's turns and sums are those of the same rows.
   */
  lemma SummaryMatchesList(rows: seq<Row>, cid: string)
    ensures var s := SummarizeUsage(rows, cid); var listed := TurnRows(rows, cid);
      && CountTurnUsage(rows, cid) == |listed|
      && s.turns == |listed|
      && s.input == SumOf(listed, InputColumn)
      && s.output == SumOf(listed, OutputColumn)
      && s.total == SumOf(listed, TotalColumn)
  {
    var rs := RowsOf(rows, cid);
    SumOfPermutation(rs, TurnRows(rows, cid), InputColumn);
    SumOfPermutation(rs, TurnRows(rows, cid), OutputColumn);
    SumOfPermutation(rs, TurnRows(rows, cid), TotalColumn);
  }

  /** An unknown conversation has no rows, and its summary is all zero. */
  lemma UnknownConversation(rows: seq<Row>, cid: string)
    requires forall x | x in rows :: x.conversationId != cid
    ensures CountTurnUsage(rows, cid) == 0
    ensures SummarizeUsage(rows, cid) == UsageSummary(0, 0, 0, 0)
    ensures ListTurnUsage(rows, cid, 1000) == []
  {
    NoRowsOf(rows, cid);
  }

  lemma {:induction false} NoRowsOf(rows: seq<Row>, cid: string)
    requires forall x | x in rows :: x.conversationId != cid
    ensures RowsOf(rows, cid) == []
  {
    if rows != [] {
      NoRowsOf(rows[..|rows| - 1], cid);
    }
  }

  /** Recording a turn adds one to its conversation's count and its counts to the sums. */
  lemma RecordedTurnIsSummarized(rows: seq<Row>, x: Row)
    ensures SummarizeUsage(rows + [x], x.conversationId)
         == var s := SummarizeUsage(rows, x.conversationId);
            UsageSummary(s.turns + 1, s.input + x.input, s.output + x.output, s.total + x.total)
  {
    var rs := RowsOf(rows, x.conversationId);
    RowsOfAppend(rows, x, x.conversationId);
    assert (rs + [x])[..|rs + [x]| - 1] == rs;
  }

  /** Recording a turn changes no other conversation's summary. */
  lemma OtherSummariesUnchanged(rows: seq<Row>, x: Row, cid: string)
    requires x.conversationId != cid
    ensures SummarizeUsage(rows + [x], cid) == SummarizeUsage(rows, cid)
  {
    RowsOfAppend(rows, x, cid);
    assert RowsOf(rows, cid) + [] == RowsOf(rows, cid);
  }

  // ---------------------------------------------------------------------------
  // Conversation summaries

  /** SQLite's text comparison (`BINARY` collation): code-point lexicographic order. */
  predicate TextLe(a: string, b: string)
    decreases |a|
  {
    a == [] || (b != [] && (a[0] < b[0] || (a[0] == b[0] && TextLe(a[1..], b[1..]))))
  }

  lemma {:induction false} TextLeTotal(a: string, b: string)
    ensures TextLe(a, b) || TextLe(b, a)
    decreases |a|
  {
    if a != [] && b != [] && a[0] == b[0] {
      TextLeTotal(a[1..], b[1..]);
    }
  }

  lemma {:induction false} TextLeTransitive(a: string, b: string, c: string)
    requires TextLe(a, b) && TextLe(b, c)
    ensures TextLe(a, c)
    decreases |a|
  {
    if a != [] && b != [] && c != [] && a[0] == b[0] && b[0] == c[0] {
      TextLeTransitive(a[1..], b[1..], c[1..]);
    }
  }

  /** `MAX(created_at)` of a non-empty group ("" for none). */
  function LatestCreated(rs: seq<Row>): (m: string)
    ensures forall x | x in rs :: TextLe(x.createdAt, m)
    ensures rs != [] ==> exists x | x in rs :: x.createdAt == m
  {
    if rs == [] then ""
    else
      var init := rs[..|rs| - 1];
      var last := rs[|rs| - 1];
      var m' := LatestCreated(init);
      assert rs == init + [last];
      if init != [] && TextLe(last.createdAt, m') then m'
      else
        TextLeTotal(last.createdAt, m');
        forall x | x in init
          ensures TextLe(x.createdAt, last.createdAt)
        {
          TextLeTransitive(x.createdAt, m', last.createdAt);
        }
        TextLeTotal(last.createdAt, last.createdAt);
        last.createdAt
  }

  /** The conversation ids in the table, once each, in order of first appearance. */
  function ConversationIds(rows: seq<Row>): (ids: seq<string>)
    ensures |ids| <= |rows|
    ensures forall i, j | 0 <= i < j < |ids| :: ids[i] != ids[j]
    ensures forall x | x in rows :: x.conversationId in ids
  {
    if rows == [] then []
    else
      var init := rows[..|rows| - 1];
      var last := rows[|rows| - 1];
      var ids := ConversationIds(init);
      assert rows == init + [last];
      if last.conversationId in ids then ids else ids + [last.conversationId]
  }

  /** Every listed id has at least one row. */
  lemma {:induction false} ConversationIdsOccur(rows: seq<Row>)
    ensures forall c | c in ConversationIds(rows) :: RowsOf(rows, c) != []
  {
    if rows != [] {
      var init := rows[..|rows| - 1];
      var last := rows[|rows| - 1];
      ConversationIdsOccur(init);
      assert rows == init + [last];
      forall c | c in ConversationIds(rows)
        ensures RowsOf(rows, c) != []
      {
        RowsOfAppend(init, last, c);
      }
    }
  }

  /** The `GROUP BY conversation_id` line of one conversation. */
  function SummaryOf(rows: seq<Row>, cid: string): (s: ConversationSummary)
    ensures s.conversationId == cid
  {
    var rs := RowsOf(rows, cid);
    ConversationSummary(cid, |rs|, SumOf(rs, TotalColumn), LatestCreated(rs))
  }

  function SummariesOf(rows: seq<Row>, ids: seq<string>): (r: seq<ConversationSummary>)
    ensures |r| == |ids|
    ensures forall i | 0 <= i < |ids| :: r[i] == SummaryOf(rows, ids[i])
  {
    seq(|ids|, i requires 0 <= i < |ids| => SummaryOf(rows, ids[i]))
  }

  /** `ORDER BY last_created_at DESC`. */
  predicate LaterFirst(a: ConversationSummary, b: ConversationSummary)
  {
    TextLe(b.lastCreatedAt, a.lastCreatedAt)
  }

  lemma LaterFirstOrders()
    ensures Total(LaterFirst) && Transitive(LaterFirst)
  {
    forall a: ConversationSummary, b: ConversationSummary
      ensures LaterFirst(a, b) || LaterFirst(b, a)
    {
      TextLeTotal(a.lastCreatedAt, b.lastCreatedAt);
    }
    forall a: ConversationSummary, b: ConversationSummary, c: ConversationSummary
      | LaterFirst(a, b) && LaterFirst(b, c)
      ensures LaterFirst(a, c)
    {
      TextLeTransitive(c.lastCreatedAt, b.lastCreatedAt, a.lastCreatedAt);
    }
  }

  /** Every conversation's summary, most recently active first. */
  function Conversations(rows: seq<Row>): (r: seq<ConversationSummary>)
    ensures |r| <= |rows|
  {
    Sort(SummariesOf(rows, ConversationIds(rows)), LaterFirst)
  }

  /** The listed summaries are those of the table's conversations, latest activity first. */
  lemma ConversationsOrdered(rows: seq<Row>)
    ensures multiset(Conversations(rows)) == multiset(SummariesOf(rows, ConversationIds(rows)))
    ensures SortedBy(Conversations(rows), LaterFirst)
  {
    LaterFirstOrders();
    SortSorted(SummariesOf(rows, ConversationIds(rows)), LaterFirst);
  }

  /** `list_conversations_page`. */
  function ListConversationsPage(rows: seq<Row>, limit: int, offset: int): (r: seq<ConversationSummary>)
    ensures |r| <= |Conversations(rows)|
    ensures limit >= 0 ==> |r| <= limit
  {
    Window(Conversations(rows), limit, offset)
  }

  /** A page of summaries is the window of the ordered summaries that `LIMIT` and `OFFSET` select. */
  lemma ConversationsPageWindow(rows: seq<Row>, limit: int, offset: int)
    ensures var r := ListConversationsPage(rows, limit, offset);
      var all := Conversations(rows); var s := Start(|all|, offset);
      && s + |r| <= |all|
      && r == all[s..s + |r|]
      && (limit >= 0 ==> |r| == Min(limit, |all| - s))
      && (limit < 0 ==> |r| == |all| - s)
  {
    WindowOf(Conversations(rows), limit, offset, ListConversationsPage(rows, limit, offset));
  }

  /** `Window`'s contract, for a window given by name. */
  lemma WindowOf<T>(xs: seq<T>, limit: int, offset: int, r: seq<T>)
    requires r == Window(xs, limit, offset)
    ensures var s := Start(|xs|, offset);
      && s + |r| <= |xs|
      && r == xs[s..s + |r|]
      && (limit >= 0 ==> |r| == Min(limit, |xs| - s))
      && (limit < 0 ==> |r| == |xs| - s)
  {
  }

  /** `count_conversations`: the number of distinct conversation ids. */
  function CountConversations(rows: seq<Row>): (n: nat)
    ensures n == |Conversations(rows)|
  {
    ConversationsOrdered(rows);
    assert |multiset(Conversations(rows))| == |multiset(SummariesOf(rows, ConversationIds(rows)))|;
    |ConversationIds(rows)|
  }

  /**
   * Each listed summary is its conversation's: at least one turn, that
   * conversation's count, total and latest timestamp.
   */
  lemma ConversationsAreSummaries(rows: seq<Row>)
    ensures forall s | s in Conversations(rows) ::
      && s == SummaryOf(rows, s.conversationId)
      && s.turns == CountTurnUsage(rows, s.conversationId) >= 1
      && s.totalTokens == SummarizeUsage(rows, s.conversationId).total
      && (forall x | x in RowsOf(rows, s.conversationId) :: TextLe(x.createdAt, s.lastCreatedAt))
  {
    forall s | s in Conversations(rows)
      ensures && s == SummaryOf(rows, s.conversationId)
              && s.turns == CountTurnUsage(rows, s.conversationId) >= 1
              && s.totalTokens == SummarizeUsage(rows, s.conversationId).total
              && (forall x | x in RowsOf(rows, s.conversationId) :: TextLe(x.createdAt, s.lastCreatedAt))
    {
      ListedSummary(rows, s);
      SummaryOfOccurring(rows, s.conversationId);
    }
  }

  /** A listed summary is the summary line of a conversation that has rows. */
  lemma ListedSummary(rows: seq<Row>, s: ConversationSummary)
    requires s in Conversations(rows)
    ensures s == SummaryOf(rows, s.conversationId) && RowsOf(rows, s.conversationId) != []
  {
    var ids := ConversationIds(rows);
    ConversationsOrdered(rows);
    var k := PositionInPermutation(Conversations(rows), SummariesOf(rows, ids), s);
    IdOccurs(rows, ids[k]);
  }

  lemma IdOccurs(rows: seq<Row>, c: string)
    requires c in ConversationIds(rows)
    ensures RowsOf(rows, c) != []
  {
    ConversationIdsOccur(rows);
  }

  /** The summary line of a conversation with rows, against the per-conversation queries. */
  lemma SummaryOfOccurring(rows: seq<Row>, cid: string)
    requires RowsOf(rows, cid) != []
    ensures var s := SummaryOf(rows, cid);
      && s.turns == CountTurnUsage(rows, cid) >= 1
      && s.totalTokens == SummarizeUsage(rows, cid).total
      && (forall x | x in RowsOf(rows, cid) :: TextLe(x.createdAt, s.lastCreatedAt))
  {
  }

  /** Every conversation in the table is listed. */
  lemma EveryConversationListed(rows: seq<Row>)
    ensures forall x | x in rows :: SummaryOf(rows, x.conversationId) in Conversations(rows)
  {
    var ids := ConversationIds(rows);
    var sums := SummariesOf(rows, ids);
    ConversationsOrdered(rows);
    forall x | x in rows
      ensures SummaryOf(rows, x.conversationId) in Conversations(rows)
    {
      var k :| 0 <= k < |ids| && ids[k] == x.conversationId;
      KeptByPermutation(Conversations(rows), sums, k);
    }
  }

  /** No conversation is listed twice. */
  lemma ConversationsDistinct(rows: seq<Row>)
    ensures forall i, j | 0 <= i < j < |Conversations(rows)| ::
      Conversations(rows)[i].conversationId != Conversations(rows)[j].conversationId
  {
    ConversationsOrdered(rows);
    DistinctKeysKept(Conversations(rows), SummariesOf(rows, ConversationIds(rows)),
                     (s: ConversationSummary) => s.conversationId);
  }

  // ---------------------------------------------------------------------------
  // The table

  /** `conversation_turn_usage` and its `AUTOINCREMENT` counter. */
  class Ledger {
    var rows: seq<Row>
    var nextId: int

    /** Ids are positive, below the counter, and increase in insertion order. */
    predicate Valid()
      reads this
    {
      && nextId >= 1
      && (forall i | 0 <= i < |rows| :: 1 <= rows[i].id < nextId)
      && (forall i, j | 0 <= i < j < |rows| :: rows[i].id < rows[j].id)
    }

    constructor ()
      ensures Valid() && rows == [] && nextId == 1
    {
      rows := [];
      nextId := 1;
    }

    /**
     * `record_turn_usage`: appends one row with the next id and leaves every
     * existing row as it was.
     */
    method Record(cid: string, turnIndex: int, usage: Usage, createdAt: string)
      requires Valid()
      modifies this
      ensures Valid()
      ensures var c := CountsOf(usage);
        rows == old(rows) + [Row(old(nextId), cid, turnIndex, c.input, c.output, c.total, createdAt)]
      ensures nextId == old(nextId) + 1
    {
      var c := CountsOf(usage);
      rows := rows + [Row(nextId, cid, turnIndex, c.input, c.output, c.total, createdAt)];
      nextId := nextId + 1;
    }
  }

  /** The two rows the example below records. */
  function ExampleRows(t1: string, t2: string): seq<Row>
  {
    [Row(1, "conv-1", 1, 3, 5, 8, t1), Row(2, "conv-1", 2, 2, 4, 6, t2)]
  }

  lemma ExampleRowsOf(t1: string, t2: string)
    ensures RowsOf(ExampleRows(t1, t2), "conv-1") == ExampleRows(t1, t2)
  {
    var rows := ExampleRows(t1, t2);
    assert rows[..1] == [rows[0]];
    assert [rows[0]][..0] == [];
  }

  lemma ExampleTurnRows(t1: string, t2: string)
    ensures TurnRows(ExampleRows(t1, t2), "conv-1") == ExampleRows(t1, t2)
  {
    var rows := ExampleRows(t1, t2);
    var r1, r2 := rows[0], rows[1];
    ExampleRowsOf(t1, t2);
    assert Sort([r2], TurnBefore) == [r2] by {
      assert [r2][1..] == [];
      assert Insert(r2, [], TurnBefore) == [r2];
    }
    assert Sort(rows, TurnBefore) == [r1, r2] by {
      assert rows[1..] == [r2];
      assert TurnBefore(r1, r2);
      assert Insert(r1, [r2], TurnBefore) == [r1, r2];
    }
  }

  lemma ExampleListed(t1: string, t2: string)
    ensures var rows := ExampleRows(t1, t2);
      ListTurnUsage(rows, "conv-1", 1000) == [Public(rows[0]), Public(rows[1])]
  {
    var rows := ExampleRows(t1, t2);
    ExampleTurnRows(t1, t2);
    assert Window(rows, 1000, 0) == rows;
    assert PublicRows(rows) == [Public(rows[0]), Public(rows[1])];
    assert ListTurnUsage(rows, "conv-1", 1000) == PublicRows(Window(TurnRows(rows, "conv-1"), 1000, 0));
  }

  lemma ExampleSummed(t1: string, t2: string)
    ensures SummarizeUsage(ExampleRows(t1, t2), "conv-1") == UsageSummary(2, 5, 9, 14)
  {
    var rows := ExampleRows(t1, t2);
    var r1, r2 := rows[0], rows[1];
    ExampleRowsOf(t1, t2);
    forall col: Column
      ensures SumOf(rows, col) == Cell(r1, col) + Cell(r2, col)
    {
      assert [r1][..0] == [];
      assert SumOf([r1], col) == Cell(r1, col);
      assert rows[..1] == [r1];
    }
  }

  /**
   * Two recorded turns of one conversation are listed in turn order and
   * summed: turns [1, 2], sums {2, 5, 9, 14}.
   */
  method TwoTurnsExample(t1: string, t2: string) returns (listed: seq<TurnUsageRow>, summary: UsageSummary)
    ensures |listed| == 2
    ensures listed[0].turnIndex == 1 && listed[1].turnIndex == 2
    ensures listed[0].total == 8 && listed[1].input == 2
    ensures summary == UsageSummary(2, 5, 9, 14)
  {
    var ledger := new Ledger();
    ledger.Record("conv-1", 1, Usage(Some(3), Some(5), Some(8)), t1);
    ledger.Record("conv-1", 2, Usage(Some(2), Some(4), Some(6)), t2);
    assert ledger.rows == ExampleRows(t1, t2);
    ExampleListed(t1, t2);
    ExampleSummed(t1, t2);
    listed := ListTurnUsage(ledger.rows, "conv-1", 1000);
    summary := SummarizeUsage(ledger.rows, "conv-1");
  }
}

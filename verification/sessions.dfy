/**
 * The in-memory session cache of the agent routes: conversation id to a
 * record holding the serialized agent thread and the running statistics.
 */
module Sessions {
  import opened Common
  import opened PyText
  import opened Values
  import opened SessionStats

  /**
   * A cached record. `Current` is `{"thread": t, "stats": s}` as the routes
   * store it; `Legacy` is an older record that is the serialized thread
   * dictionary itself and has neither a "thread" nor a "stats" key.
   */
  datatype Record =
    | Current(thread: Value, stats: Stats)
    | Legacy(blob: seq<(string, Value)>)

  /** The thread the routes resume from, or `None` for a new thread. */
  function ThreadToLoad(rec: Option<Record>): (r: Option<seq<(string, Value)>>)
    ensures rec.None? ==> r.None?
    ensures rec.Some? && rec.value.Legacy? ==> r == Some(rec.value.blob)
    ensures rec.Some? && rec.value.Current? ==>
      (r.Some? <==> rec.value.thread.VDict?) && (r.Some? ==> r.value == rec.value.thread.entries)
  {
    match rec
    case None => None
    case Some(Legacy(blob)) => Some(blob)
    case Some(Current(t, _)) => if t.VDict? then Some(t.entries) else None
  }

  /** The objects a record's statistics live in. */
  function StatsFrame(rec: Option<Record>): set<object>
  {
    if rec.Some? && rec.value.Current? then {rec.value.stats} else {}
  }

  /** The value of the statistics `_get_stats` hands out for `rec`. */
  function StatsOf(rec: Option<Record>): StatsView
    reads StatsFrame(rec)
  {
    if rec.Some? && rec.value.Current? then rec.value.stats.View() else Zero
  }

  /**
   * `_get_stats`: the record's own statistics object when it has one (so the
   * caller's updates show through the cache), otherwise a fresh zeroed one.
   */
  method GetStats(rec: Option<Record>) returns (s: Stats)
    ensures rec.Some? && rec.value.Current? ==> s == rec.value.stats
    ensures !(rec.Some? && rec.value.Current?) ==> fresh(s)
    ensures s.View() == StatsOf(rec)
  {
    if rec.Some? && rec.value.Current? {
      s := rec.value.stats;
    } else {
      s := new Stats();
    }
  }

  /**
   * The conversation id of a request: the given id stripped, or the freshly
   * generated one when that is absent or blank.
   */
  function ResolveConversationId(given: Option<string>, generated: string): (r: string)
    ensures given.Some? && !IsBlank(given.value) ==> r == Strip(given.value) && r != []
    ensures given.None? || IsBlank(given.value) ==> r == generated
  {
    var s := if given.Some? then Strip(given.value) else "";
    StripEmptyIffBlank(if given.Some? then given.value else "");
    if s != "" then s else generated
  }

  /**
   * Sending back the id a response carried continues the same conversation,
   * whatever id would have been generated (ids generated by the routes are
   * UUIDs, which carry no whitespace).
   */
  lemma EchoedIdContinues(given: Option<string>, generated: string, generated2: string)
    requires Strip(generated) == generated && generated != []
    ensures ResolveConversationId(Some(ResolveConversationId(given, generated)), generated2)
         == ResolveConversationId(given, generated)
  {
    var r := ResolveConversationId(given, generated);
    if given.Some? && !IsBlank(given.value) {
      StripIdempotent(given.value);
    }
    StripEmptyIffBlank(r);
  }

  /** `_conversation_threads`: conversation id to record. */
  class SessionCache {
    var records: map<string, Record>

    constructor ()
      ensures records == map[]
    {
      records := map[];
    }

    /** `_conversation_threads.get(cid)`. */
    function Get(cid: string): (r: Option<Record>)
      reads this
      ensures r.Some? <==> cid in records
      ensures r.Some? ==> r.value == records[cid]
    {
      if cid in records then Some(records[cid]) else None
    }

    /** The statistics object cached for `cid`, as a frame. */
    function StatsAt(cid: string): set<object>
      reads this
    {
      StatsFrame(Get(cid))
    }

    /** `_conversation_threads[cid] = rec`. */
    method Put(cid: string, rec: Record)
      modifies this
      ensures records == old(records)[cid := rec]
    {
      records := records[cid := rec];
    }
  }

  /** A record stored by a turn gives back its thread and statistics on the next turn. */
  lemma StoredRecordReloads(records: map<string, Record>, cid: string, blob: seq<(string, Value)>, s: Stats)
    ensures var rec := Some(records[cid := Current(VDict(blob), s)][cid]);
      ThreadToLoad(rec) == Some(blob) && StatsFrame(rec) == {s}
  {
  }
}

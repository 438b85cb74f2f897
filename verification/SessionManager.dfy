/**
 The in-memory session manager, and when the append-only store behaves exactly like it.
 */
module SessionManager {
  import opened History
  import opened SessionStore
  import opened SessionCrash

  datatype Session = Session(messages: seq<Message>, summary: string)

  // ----- one operation on all sessions

  function ManagerStep(sessions: map<string, Session>, key: string, op: Op): map<string, Session> {
    match op
    case Add(message) =>
      var session := if key in sessions then sessions[key] else Session([], "");
      sessions[key := session.(messages := session.messages + [message])]
    case SetSummary(summary) =>
      if key in sessions then sessions[key := sessions[key].(summary := summary)] else sessions
    case Truncate(keepLast) =>
      if key in sessions then sessions[key := sessions[key].(messages := Last(sessions[key].messages, keepLast))]
      else sessions
    case SetHistory(history) =>
      if key in sessions then sessions[key := sessions[key].(messages := history)] else sessions
    case Compact => sessions
  }

  class Manager {
    var sessions: map<string, Session>

    constructor ()
      ensures sessions == map[]
    {
      sessions := map[];
    }

    method AddFullMessage(sessionKey: string, msg: Message)
      modifies this
      ensures sessions == ManagerStep(old(sessions), sessionKey, Add(msg))
    {
      var session := Session([], "");
      if sessionKey in sessions {
        session := sessions[sessionKey];
      }
      session := session.(messages := session.messages + [msg]);
      sessions := sessions[sessionKey := session];
    }

    method GetHistory(key: string) returns (history: seq<Message>)
      ensures history == ManagerHistory(sessions, key)
    {
      if key !in sessions {
        return [];
      }
      return sessions[key].messages;
    }

    method GetSummary(key: string) returns (summary: string)
      ensures summary == ManagerSummary(sessions, key)
    {
      if key !in sessions {
        return "";
      }
      return sessions[key].summary;
    }

    method SetSummary(key: string, summary: string)
      modifies this
      ensures sessions == ManagerStep(old(sessions), key, Op.SetSummary(summary))
    {
      if key in sessions {
        sessions := sessions[key := sessions[key].(summary := summary)];
      }
    }

    method TruncateHistory(key: string, keepLast: int)
      modifies this
      ensures sessions == ManagerStep(old(sessions), key, Truncate(keepLast))
    {
      if key !in sessions {
        return;
      }
      var session := sessions[key];
      if keepLast <= 0 {
        sessions := sessions[key := session.(messages := [])];
        return;
      }
      if |session.messages| <= keepLast {
        assert sessions[key := session] == sessions;
        return;
      }
      sessions := sessions[key := session.(messages := session.messages[|session.messages| - keepLast..])];
    }

    method SetHistory(key: string, history: seq<Message>)
      modifies this
      ensures sessions == ManagerStep(old(sessions), key, Op.SetHistory(history))
    {
      if key in sessions {
        sessions := sessions[key := sessions[key].(messages := history)];
      }
    }
  }

  // ----- whole traces on both backends

  datatype Event = Event(key: string, op: Op)

  function CellOf(cells: map<string, Cell>, key: string): Cell {
    if SanitizeKey(key) in cells then cells[SanitizeKey(key)] else ABSENT
  }

  function StoreAfter(trace: seq<Event>): map<string, Cell> {
    if trace == [] then map[]
    else
      var cells, last := StoreAfter(trace[..|trace| - 1]), trace[|trace| - 1];
      cells[SanitizeKey(last.key) := Done(CellOf(cells, last.key), last.op)]
  }

  function ManagerAfter(trace: seq<Event>): map<string, Session> {
    if trace == [] then map[]
    else ManagerStep(ManagerAfter(trace[..|trace| - 1]), trace[|trace| - 1].key, trace[|trace| - 1].op)
  }

  function ManagerHistory(sessions: map<string, Session>, key: string): seq<Message> {
    if key in sessions then sessions[key].messages else []
  }

  function ManagerSummary(sessions: map<string, Session>, key: string): string {
    if key in sessions then sessions[key].summary else ""
  }

  /** Both backends show the same history and summary for `key`. */
  ghost predicate SameView(cell: Cell, sessions: map<string, Session>, key: string) {
    Visible(cell) == ManagerHistory(sessions, key) && cell.meta.summary == ManagerSummary(sessions, key)
  }

  ghost predicate Agree(trace: seq<Event>, keys: set<string>) {
    forall key :: key in keys ==> SameView(CellOf(StoreAfter(trace), key), ManagerAfter(trace), key)
  }

  /** An operation that creates nothing on a session that does not exist yet. */
  predicate Harmless(op: Op) { (op.SetSummary? ==> op.summary == "") && (op.SetHistory? ==> op.history == []) }

  ghost predicate Added(trace: seq<Event>, key: string) {
    exists i :: 0 <= i < |trace| && trace[i].key == key && trace[i].op.Add?
  }

  /** No summary or history is set on a session before its first message is added. */
  ghost predicate Seeded(trace: seq<Event>) {
    forall i :: 0 <= i < |trace| ==> Harmless(trace[i].op) || Added(trace[..i], trace[i].key)
  }

  /** File names keep the keys apart. */
  ghost predicate Distinct(keys: set<string>) {
    forall k, k' :: k in keys && k' in keys && SharesFile(k, k') ==> k == k'
  }

  ghost predicate Uses(trace: seq<Event>, keys: set<string>) {
    forall i :: 0 <= i < |trace| ==> trace[i].key in keys
  }

  /** The operations on one file. */
  ghost function OnFile(trace: seq<Event>, key: string): seq<Event> {
    if trace == [] then []
    else OnFile(trace[..|trace| - 1], key) + if SharesFile(trace[|trace| - 1].key, key) then [trace[|trace| - 1]] else []
  }

  /** What a key shows after a trace is decided by the operations on keys that share its file. */
  lemma {:induction false} KeysAreApart(trace: seq<Event>, key: string)
    ensures CellOf(StoreAfter(trace), key) == CellOf(StoreAfter(OnFile(trace, key)), key)
    decreases |trace|
  {
    hide Done, SharesFile, SanitizeKey;
    if trace == [] {
    } else {
      var most, last := trace[..|trace| - 1], trace[|trace| - 1];
      KeysAreApart(most, key);
      NamesOfKeys(last.key, key);
      StoreGrows(most, last);
      assert most + [last] == trace;
      if SharesFile(last.key, key) {
        StoreGrows(OnFile(most, key), last);
        assert OnFile(trace, key) == OnFile(most, key) + [last];
      } else {
        assert OnFile(trace, key) == OnFile(most, key);
      }
    }
  }

  lemma StoreGrows(trace: seq<Event>, last: Event)
    ensures StoreAfter(trace + [last]) ==
      StoreAfter(trace)[SanitizeKey(last.key) := Done(CellOf(StoreAfter(trace), last.key), last.op)]
  {
    hide Done, SanitizeKey;
    assert (trace + [last])[..|trace|] == trace;
  }

  /** With both writes of an operation on disk, the store method has made the step that the traces take. */
  lemma UncrashedIsDone(cell: Cell, op: Op, writes: nat)
    requires writes >= 2
    ensures Partial(cell, op, writes) == Done(cell, op)
  {
    assert |Plan(cell, op)| <= 2;
    assert Plan(cell, op)[..|Plan(cell, op)|] == Plan(cell, op);
  }

  // ----- simulation

  ghost predicate Related(cell: Cell, sessions: map<string, Session>, key: string) {
    SkipInLog(cell) && Intact(cell) && SameView(cell, sessions, key)
  }

  lemma DoneIsIntact(cell: Cell, op: Op)
    requires Intact(cell)
    ensures Intact(Done(cell, op))
  {
    DoneIsPartial(cell, op);
    PartialIsIntact(cell, op, |Plan(cell, op)|);
  }

  lemma SummaryAfter(cell: Cell, op: Op)
    ensures Done(cell, op).meta.summary == if op.SetSummary? then op.summary else cell.meta.summary
  {
    hide Visible;
    if |Plan(cell, op)| == 1 {
      PlanOfOne(cell, op);
    } else {
      PlanOfTwo(cell, op);
    }
    DoneIsPartial(cell, op);
  }

  /** What the store shows after an operation, in terms of what it showed before. */
  lemma VisibleAfter(cell: Cell, op: Op)
    requires SkipInLog(cell) && Intact(cell)
    ensures SkipInLog(Done(cell, op))
    ensures Visible(Done(cell, op)) ==
      match op
      case Add(message) => Visible(cell) + [message]
      case SetSummary(_) => Visible(cell)
      case Truncate(keepLast) => Last(Visible(cell), keepLast)
      case SetHistory(history) => history
      case Compact => Visible(cell)
  {
    match op
    case Add(message) => AddAppends(cell, message);
    case SetSummary(_) =>
      PlanOfOne(cell, op);
      DoneIsPartial(cell, op);
    case Truncate(keepLast) =>
      TruncateIntact(cell, keepLast);
      TruncateExactly(cell, keepLast);
    case SetHistory(history) => SetHistoryReplaces(cell, history);
    case Compact => CompactIsInvisible(cell);
  }

  lemma StepRelated(cell: Cell, sessions: map<string, Session>, key: string, op: Op)
    requires Related(cell, sessions, key) && (Harmless(op) || key in sessions)
    ensures Related(Done(cell, op), ManagerStep(sessions, key, op), key)
  {
    hide Visible, Done;
    DoneIsIntact(cell, op);
    VisibleAfter(cell, op);
    SummaryAfter(cell, op);
  }

  lemma StepUnrelated(cell: Cell, sessions: map<string, Session>, key: string, op: Op)
    requires Related(cell, sessions, key) && !Harmless(op) && key !in sessions
    ensures !SameView(Done(cell, op), ManagerStep(sessions, key, op), key)
  {
    hide Visible, Done;
    VisibleAfter(cell, op);
    SummaryAfter(cell, op);
  }

  lemma {:induction false} AddedIsPresent(trace: seq<Event>, key: string)
    ensures key in ManagerAfter(trace) <==> Added(trace, key)
    decreases |trace|
  {
    if trace == [] {
    } else {
      var most := trace[..|trace| - 1];
      AddedIsPresent(most, key);
      if Added(most, key) {
        var i :| 0 <= i < |most| && most[i].key == key && most[i].op.Add?;
        assert trace[i] == most[i];
      }
      if Added(trace, key) {
        var i :| 0 <= i < |trace| && trace[i].key == key && trace[i].op.Add?;
        if i < |most| {
          assert most[i] == trace[i];
        }
      }
    }
  }

  lemma SeededPrefix(trace: seq<Event>)
    requires trace != []
    ensures var last := |trace| - 1;
      Seeded(trace) <==> Seeded(trace[..last]) && (Harmless(trace[last].op) || Added(trace[..last], trace[last].key))
  {
    hide Added;
    var most := trace[..|trace| - 1];
    forall i | 0 <= i < |most| ensures trace[..i] == most[..i] && trace[i] == most[i] {
    }
  }

  /** On a seeded trace every session is related in both backends. */
  lemma {:induction false} SeededIsRelated(trace: seq<Event>, keys: set<string>, key: string)
    requires Seeded(trace) && Distinct(keys) && Uses(trace, keys) && key in keys
    ensures Related(CellOf(StoreAfter(trace), key), ManagerAfter(trace), key)
    decreases |trace|
  {
    hide Done, Visible, SkipInLog, Intact, Seeded, Distinct;
    if trace == [] {
      NothingStored(key);
    } else {
      var most, last := trace[..|trace| - 1], trace[|trace| - 1];
      SeededPrefix(trace);
      SeededIsRelated(most, keys, key);
      if last.key == key {
        AddedIsPresent(most, key);
        StepRelated(CellOf(StoreAfter(most), key), ManagerAfter(most), key, last.op);
      } else {
        assert SanitizeKey(last.key) != SanitizeKey(key) by { DistinctNames(keys, last.key, key); }
      }
    }
  }

  lemma DistinctNames(keys: set<string>, a: string, b: string)
    requires Distinct(keys) && a in keys && b in keys && a != b
    ensures SanitizeKey(a) != SanitizeKey(b)
  {
    NamesOfKeys(a, b);
  }

  lemma NothingStored(key: string)
    ensures Related(ABSENT, map[], key)
  {
  }

  lemma {:induction false} UnseededDisagrees(trace: seq<Event>, keys: set<string>) returns (n: nat)
    requires !Seeded(trace) && Distinct(keys) && Uses(trace, keys)
    ensures n <= |trace| && !Agree(trace[..n], keys)
    decreases |trace|
  {
    hide Done, Visible, SameView;
    var most, last := trace[..|trace| - 1], trace[|trace| - 1];
    SeededPrefix(trace);
    if Seeded(most) {
      n := |trace|;
      assert trace[..n] == trace;
      SeededIsRelated(most, keys, last.key);
      AddedIsPresent(most, last.key);
      StepUnrelated(CellOf(StoreAfter(most), last.key), ManagerAfter(most), last.key, last.op);
    } else {
      n := UnseededDisagrees(most, keys);
      assert most[..n] == trace[..n];
    }
  }

  /**
   The two backends cannot be told apart at any point of a trace, on any of its keys, if and only if no summary
   or history is set on a session before its first message is added.
   */
  lemma BackendsAgreeExactly(trace: seq<Event>, keys: set<string>)
    requires Distinct(keys) && Uses(trace, keys)
    ensures (forall n :: 0 <= n <= |trace| ==> Agree(trace[..n], keys)) <==> Seeded(trace)
  {
    hide Agree, Seeded;
    if Seeded(trace) {
      forall n | 0 <= n <= |trace| ensures Agree(trace[..n], keys) {
        SeededTake(trace, n);
        SeededAgrees(trace[..n], keys);
      }
    } else {
      var n := UnseededDisagrees(trace, keys);
    }
  }

  lemma SeededTake(trace: seq<Event>, n: nat)
    requires Seeded(trace) && n <= |trace|
    ensures Seeded(trace[..n])
  {
    hide Added;
    forall i | 0 <= i < n ensures trace[..n][..i] == trace[..i] && trace[..n][i] == trace[i] {
    }
  }

  lemma SeededAgrees(trace: seq<Event>, keys: set<string>)
    requires Seeded(trace) && Distinct(keys) && Uses(trace, keys)
    ensures Agree(trace, keys)
  {
    hide SameView, StoreAfter, ManagerAfter, CellOf;
    forall key | key in keys ensures SameView(CellOf(StoreAfter(trace), key), ManagerAfter(trace), key) {
      SeededIsRelated(trace, keys, key);
    }
  }
}

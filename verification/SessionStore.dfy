/**
 The append-only session store: a log file and a metadata file per session, the writes each operation
 makes, and what a crash or a failed write between two of them leaves behind.
 A log is modelled line by line (JSON itself is not); `Blank` is an empty line, `Corrupt` one that does not decode.
 */
module SessionStore {
  import opened History

  datatype Line = Record(message: Message) | Corrupt | Blank

  datatype Meta = Meta(summary: string, skip: nat, count: nat)

  /** One session on disk. A missing log reads as empty, missing metadata as zero values. */
  datatype Cell = Cell(log: seq<Line>, meta: Meta)

  const ABSENT := Cell([], Meta("", 0, 0))

  datatype Op =
    | Add(message: Message)
    | SetSummary(summary: string)
    | Truncate(keepLast: int)
    | SetHistory(history: seq<Message>)
    | Compact

  /** A single write to disk, atomic on its own. */
  datatype Write = AppendLine(line: Line) | ReplaceLog(log: seq<Line>) | ReplaceMeta(meta: Meta)

  // ----- reading

  /** The lines that count: all but empty ones. */
  function Lines(log: seq<Line>): (r: seq<Line>)
    ensures |r| <= |log|
  {
    if log == [] then []
    else Lines(log[..|log| - 1]) + if log[|log| - 1].Blank? then [] else [log[|log| - 1]]
  }

  /** The messages of the lines that decode. */
  function Messages(lines: seq<Line>): (r: seq<Message>)
    ensures |r| <= |lines|
  {
    if lines == [] then []
    else Messages(lines[..|lines| - 1]) + if lines[|lines| - 1].Record? then [lines[|lines| - 1].message] else []
  }

  function From<T>(s: seq<T>, n: nat): seq<T> { if n <= |s| then s[n..] else [] }

  function Visible(cell: Cell): seq<Message> { Messages(From(Lines(cell.log), cell.meta.skip)) }

  function Encode(history: seq<Message>): (r: seq<Line>)
    ensures |r| == |history| && forall k :: 0 <= k < |r| ==> r[k] == Record(history[k])
  {
    if history == [] then [] else Encode(history[..|history| - 1]) + [Record(history[|history| - 1])]
  }

  // ----- the writes of each operation, in order

  function TruncatedSkip(n: nat, skip: nat, keepLast: int): nat {
    if keepLast <= 0 then n
    else if keepLast < n - skip then n - keepLast
    else skip
  }

  function Plan(cell: Cell, op: Op): seq<Write> {
    var meta := cell.meta;
    match op
    case Add(message) => [AppendLine(Record(message)), ReplaceMeta(meta.(count := meta.count + 1))]
    case SetSummary(summary) => [ReplaceMeta(meta.(summary := summary))]
    case Truncate(keepLast) =>
      var n := |Lines(cell.log)|;
      [ReplaceMeta(meta.(count := n, skip := TruncatedSkip(n, meta.skip, keepLast)))]
    case SetHistory(history) =>
      [ReplaceMeta(meta.(skip := 0, count := |history|)), ReplaceLog(Encode(history))]
    case Compact =>
      if meta.skip == 0 then []
      else [ReplaceMeta(meta.(skip := 0, count := |Visible(cell)|)), ReplaceLog(Encode(Visible(cell)))]
  }

  function Apply(cell: Cell, write: Write): Cell {
    match write
    case AppendLine(line) => cell.(log := cell.log + [line])
    case ReplaceLog(log) => cell.(log := log)
    case ReplaceMeta(meta) => cell.(meta := meta)
  }

  function ApplyAll(cell: Cell, writes: seq<Write>): Cell {
    if writes == [] then cell else Apply(ApplyAll(cell, writes[..|writes| - 1]), writes[|writes| - 1])
  }

  /** The cell after the first `n` writes of the operation reached the disk. */
  function Partial(cell: Cell, op: Op, n: nat): Cell {
    var plan := Plan(cell, op);
    ApplyAll(cell, if n <= |plan| then plan[..n] else plan)
  }

  function Done(cell: Cell, op: Op): Cell { ApplyAll(cell, Plan(cell, op)) }

  // ----- the store as it runs

  function SanitizeKey(key: string): string {
    if key == "" then ""
    else
      var c := key[|key| - 1];
      SanitizeKey(key[..|key| - 1]) + [if c == ':' || c == '/' || c == '\\' then '_' else c]
  }

  /** The characters that a file name does not tell apart. */
  predicate Joined(c: char) { c == ':' || c == '/' || c == '\\' || c == '_' }

  /** Keys of equal length that differ only where both hold a joined character. */
  ghost predicate SharesFile(a: string, b: string) {
    |a| == |b| && forall i :: 0 <= i < |a| ==> a[i] == b[i] || (Joined(a[i]) && Joined(b[i]))
  }

  /** A file name is its key with an underscore for each colon, slash and backslash. */
  lemma {:induction false} SanitizeKeySpec(key: string)
    ensures |SanitizeKey(key)| == |key|
    ensures forall i :: 0 <= i < |key| ==>
      if Joined(key[i]) then SanitizeKey(key)[i] == '_' else SanitizeKey(key)[i] == key[i] && SanitizeKey(key)[i] != '_'
  {
    if key == "" {
    } else {
      SanitizeKeySpec(key[..|key| - 1]);
    }
  }

  lemma NamesOfKeys(a: string, b: string)
    ensures SanitizeKey(a) == SanitizeKey(b) <==> SharesFile(a, b)
  {
    SanitizeKeySpec(a);
    SanitizeKeySpec(b);
    hide SanitizeKey;
    if SanitizeKey(a) == SanitizeKey(b) {
      forall i | 0 <= i < |a| ensures a[i] == b[i] || (Joined(a[i]) && Joined(b[i])) {
        assert SanitizeKey(a)[i] == SanitizeKey(b)[i];
      }
    }
    if SharesFile(a, b) {
      forall i | 0 <= i < |a| ensures SanitizeKey(a)[i] == SanitizeKey(b)[i] {
      }
    }
  }

  lemma KeysOfFile(key: string)
    ensures forall other :: SanitizeKey(other) == SanitizeKey(key) <==> SharesFile(other, key)
  {
    hide SanitizeKey, SharesFile;
    forall other ensures SanitizeKey(other) == SanitizeKey(key) <==> SharesFile(other, key) {
      NamesOfKeys(other, key);
    }
  }

  method ReadMessages(log: seq<Line>, skip: nat) returns (msgs: seq<Message>)
    ensures msgs == Messages(From(Lines(log), skip))
  {
    hide Lines, Messages, From;
    msgs := [];
    var lineNum := 0;
    NothingRead(log, skip);
    for i := 0 to |log|
      invariant lineNum == |Lines(log[..i])|
      invariant msgs == Messages(From(Lines(log[..i]), skip))
    {
      LinesUpto(log, i);
      FromAppend(Lines(log[..i]), log[i], skip);
      MessagesAppend(From(Lines(log[..i]), skip), log[i]);
      var line := log[i];
      if line.Blank? {
        continue;
      }
      lineNum := lineNum + 1;
      if lineNum <= skip {
        continue;
      }
      if line.Corrupt? {
        continue;
      }
      msgs := msgs + [line.message];
    }
    assert log[..|log|] == log;
  }

  lemma NothingRead(log: seq<Line>, skip: nat)
    ensures Lines(log[..0]) == [] && Messages(From(Lines(log[..0]), skip)) == []
  {
  }

  lemma LinesUpto(log: seq<Line>, i: nat)
    requires i < |log|
    ensures Lines(log[..i + 1]) == if log[i].Blank? then Lines(log[..i]) else Lines(log[..i]) + [log[i]]
  {
    assert log[..i + 1][..i] == log[..i];
  }

  lemma FromAppend<T>(s: seq<T>, x: T, n: nat)
    ensures From(s + [x], n) == if n <= |s| then From(s, n) + [x] else From(s, n)
  {
  }

  lemma MessagesAppend(lines: seq<Line>, line: Line)
    ensures Messages(lines + [line]) == if line.Record? then Messages(lines) + [line.message] else Messages(lines)
  {
    assert (lines + [line])[..|lines|] == lines;
  }

  method CountLines(log: seq<Line>) returns (n: nat)
    ensures n == |Lines(log)|
  {
    n := 0;
    for i := 0 to |log|
      invariant n == |Lines(log[..i])|
    {
      assert log[..i + 1][..i] == log[..i];
      if !log[i].Blank? {
        n := n + 1;
      }
    }
    assert log[..|log|] == log;
  }

  /** The JSON lines of a history, as they are written to a fresh log. */
  method EncodeLines(msgs: seq<Message>) returns (buf: seq<Line>)
    ensures buf == Encode(msgs)
  {
    buf := [];
    for i := 0 to |msgs|
      invariant buf == Encode(msgs[..i])
    {
      assert msgs[..i + 1][..i] == msgs[..i];
      buf := buf + [Record(msgs[i])];
    }
    assert msgs[..|msgs|] == msgs;
  }

  /**
   The store. Every operation takes the number of file writes that succeed before the process dies
   (or a write fails, which aborts the operation at the same point); `ok` says that all of them did.
   */
  class JSONLStore {
    var logs: map<string, seq<Line>>
    var metas: map<string, Meta>

    constructor ()
      ensures logs == map[] && metas == map[]
    {
      logs, metas := map[], map[];
    }

    /** What is on disk under a file name. */
    function On(name: string): Cell
      reads this
    {
      Cell(if name in logs then logs[name] else [], if name in metas then metas[name] else ABSENT.meta)
    }

    /** The history that a key shows. */
    function Shown(key: string): seq<Message>
      reads this
    {
      Visible(On(SanitizeKey(key)))
    }

    /** One session is now `cell`; every session with another file name is untouched. */
    twostate predicate Becomes(key: string, cell: Cell)
      reads this
    {
      && On(SanitizeKey(key)) == cell
      && forall name :: name != SanitizeKey(key) ==> On(name) == old(On(name))
    }

    method AddMsg(sessionKey: string, msg: Message, writes: nat) returns (ok: bool)
      modifies this
      ensures Becomes(sessionKey, Partial(old(On(SanitizeKey(sessionKey))), Add(msg), writes)) && ok == (writes >= 2)
      ensures forall key :: !SharesFile(key, sessionKey) ==> Shown(key) == old(Shown(key))
    {
      KeysOfFile(sessionKey);
      var name := SanitizeKey(sessionKey);
      ghost var cell := On(name);
      PlanOfTwo(cell, Add(msg));
      if writes == 0 {
        return false;
      }
      logs := logs[name := (if name in logs then logs[name] else []) + [Record(msg)]];
      var meta := ReadMeta(name);
      meta := meta.(count := meta.count + 1);
      if writes == 1 {
        return false;
      }
      metas := metas[name := meta];
      return true;
    }

    method ReadMeta(name: string) returns (meta: Meta)
      ensures meta == On(name).meta
    {
      meta := if name in metas then metas[name] else Meta("", 0, 0);
    }

    method GetHistory(sessionKey: string) returns (msgs: seq<Message>)
      ensures msgs == Shown(sessionKey)
    {
      var name := SanitizeKey(sessionKey);
      var meta := ReadMeta(name);
      msgs := ReadMessages(if name in logs then logs[name] else [], meta.skip);
    }

    method GetSummary(sessionKey: string) returns (summary: string)
      ensures summary == On(SanitizeKey(sessionKey)).meta.summary
    {
      var meta := ReadMeta(SanitizeKey(sessionKey));
      return meta.summary;
    }

    method SetSummary(sessionKey: string, summary: string, writes: nat) returns (ok: bool)
      modifies this
      ensures Becomes(sessionKey, Partial(old(On(SanitizeKey(sessionKey))), Op.SetSummary(summary), writes)) && ok == (writes >= 1)
      ensures forall key :: !SharesFile(key, sessionKey) ==> Shown(key) == old(Shown(key))
    {
      KeysOfFile(sessionKey);
      var name := SanitizeKey(sessionKey);
      PlanOfOne(On(name), Op.SetSummary(summary));
      var meta := ReadMeta(name);
      meta := meta.(summary := summary);
      if writes == 0 {
        return false;
      }
      metas := metas[name := meta];
      return true;
    }

    method TruncateHistory(sessionKey: string, keepLast: int, writes: nat) returns (ok: bool)
      modifies this
      ensures Becomes(sessionKey, Partial(old(On(SanitizeKey(sessionKey))), Truncate(keepLast), writes)) && ok == (writes >= 1)
      ensures forall key :: !SharesFile(key, sessionKey) ==> Shown(key) == old(Shown(key))
    {
      KeysOfFile(sessionKey);
      var name := SanitizeKey(sessionKey);
      PlanOfOne(On(name), Truncate(keepLast));
      var meta := ReadMeta(name);
      var n := CountLines(if name in logs then logs[name] else []);
      meta := meta.(count := n);
      if keepLast <= 0 {
        meta := meta.(skip := meta.count);
      } else {
        var effective := meta.count - meta.skip;
        if keepLast < effective {
          meta := meta.(skip := meta.count - keepLast);
        }
      }
      if writes == 0 {
        return false;
      }
      metas := metas[name := meta];
      return true;
    }

    method SetHistory(sessionKey: string, history: seq<Message>, writes: nat) returns (ok: bool)
      modifies this
      ensures Becomes(sessionKey, Partial(old(On(SanitizeKey(sessionKey))), Op.SetHistory(history), writes)) && ok == (writes >= 2)
      ensures forall key :: !SharesFile(key, sessionKey) ==> Shown(key) == old(Shown(key))
    {
      KeysOfFile(sessionKey);
      var name := SanitizeKey(sessionKey);
      PlanOfTwo(On(name), Op.SetHistory(history));
      var meta := ReadMeta(name);
      meta := meta.(skip := 0, count := |history|);
      if writes == 0 {
        return false;
      }
      metas := metas[name := meta];
      if writes == 1 {
        return false;
      }
      var buf := EncodeLines(history);
      logs := logs[name := buf];
      return true;
    }

    method Compact(sessionKey: string, writes: nat) returns (ok: bool)
      modifies this
      ensures Becomes(sessionKey, Partial(old(On(SanitizeKey(sessionKey))), Op.Compact, writes))
      ensures ok == (writes >= 2 || old(On(SanitizeKey(sessionKey))).meta.skip == 0)
      ensures forall key :: !SharesFile(key, sessionKey) ==> Shown(key) == old(Shown(key))
    {
      KeysOfFile(sessionKey);
      var name := SanitizeKey(sessionKey);
      PlanOfTwo(On(name), Op.Compact);
      var meta := ReadMeta(name);
      if meta.skip == 0 {
        return true;
      }
      var active := ReadMessages(if name in logs then logs[name] else [], meta.skip);
      meta := meta.(skip := 0, count := |active|);
      if writes == 0 {
        return false;
      }
      metas := metas[name := meta];
      if writes == 1 {
        return false;
      }
      var buf := EncodeLines(active);
      logs := logs[name := buf];
      return true;
    }
  }

  lemma PlanOfOne(cell: Cell, op: Op)
    requires |Plan(cell, op)| <= 1
    ensures forall n: nat :: Partial(cell, op, n) ==
              if n == 0 || Plan(cell, op) == [] then cell else Apply(cell, Plan(cell, op)[0])
  {
    var plan := Plan(cell, op);
    if plan != [] {
      assert plan[..0] == [] && plan[..1] == plan;
      assert ApplyAll(cell, plan[..0]) == cell;
    }
  }

  lemma PlanOfTwo(cell: Cell, op: Op)
    requires |Plan(cell, op)| == 2 || Plan(cell, op) == []
    ensures forall n: nat :: Partial(cell, op, n) ==
              if n == 0 || Plan(cell, op) == [] then cell
              else if n == 1 then Apply(cell, Plan(cell, op)[0])
              else Apply(Apply(cell, Plan(cell, op)[0]), Plan(cell, op)[1])
  {
    var plan := Plan(cell, op);
    if plan != [] {
      var one := plan[..1];
      assert one[..0] == [] && one[0] == plan[0];
      assert plan[..0] == [] && plan[..2] == plan && plan[..|plan| - 1] == one;
      assert ApplyAll(cell, one[..0]) == cell;
      assert ApplyAll(cell, one) == Apply(cell, plan[0]);
    }
  }
}

/**
 The conversation that is sent to a provider, and the two-pass repair that makes any stored
 history acceptable to it.
 */
module History {

  datatype Role = System | User | Assistant | Tool | Other(name: string)

  /** `calls` are the ids of the tool calls of an assistant message, `callId` the call a tool message answers. */
  datatype Message = Message(role: Role, content: string, calls: seq<string>, callId: string)

  predicate CallsTools(m: Message) { m.role.Assistant? && m.calls != [] }

  predicate UserOrTool(m: Message) { m.role.User? || m.role.Tool? }

  /** Messages that the repair never drops. */
  predicate IsPlain(m: Message) { !m.role.System? && !m.role.Tool? && !CallsTools(m) }

  // ----- what providers demand

  /** Going back over tool messages from the end, the first other message calls tools. */
  predicate EndsInToolRun(s: seq<Message>) {
    s != [] && (CallsTools(s[|s| - 1]) || (s[|s| - 1].role.Tool? && EndsInToolRun(s[..|s| - 1])))
  }

  /** The number of tool messages that directly follow position `i`. */
  function RunFrom(s: seq<Message>, i: nat): (n: nat)
    requires i <= |s|
    ensures i + n <= |s|
    decreases |s| - i
  {
    if i < |s| && s[i].role.Tool? then 1 + RunFrom(s, i + 1) else 0
  }

  lemma {:induction false} RunFromSpec(s: seq<Message>, i: nat)
    requires i <= |s|
    ensures forall k :: i <= k < i + RunFrom(s, i) ==> s[k].role.Tool?
    ensures i + RunFrom(s, i) < |s| ==> !s[i + RunFrom(s, i)].role.Tool?
    decreases |s| - i
  {
    if i == |s| || !s[i].role.Tool? {
    } else {
      RunFromSpec(s, i + 1);
    }
  }

  /** Every call of `s[i]` is answered by one of the tool messages that directly follow it. */
  ghost predicate Answered(s: seq<Message>, i: nat)
    requires i < |s|
  {
    forall id :: id in s[i].calls ==> exists k :: i < k <= i + RunFrom(s, i + 1) && s[k].callId == id
  }

  ghost predicate NoSystem(s: seq<Message>) {
    forall i :: 0 <= i < |s| ==> !s[i].role.System?
  }

  /** No orphaned tool message: each lies in a run that starts right after a tool-calling message. */
  ghost predicate ToolsHeaded(s: seq<Message>) {
    forall i :: 0 <= i < |s| && s[i].role.Tool? ==> EndsInToolRun(s[..i])
  }

  /** Every tool-calling message directly follows a user or tool message. */
  ghost predicate CallsFollow(s: seq<Message>) {
    forall i :: 0 <= i < |s| && CallsTools(s[i]) ==> i > 0 && UserOrTool(s[i - 1])
  }

  ghost predicate CallsAnswered(s: seq<Message>) {
    forall i :: 0 <= i < |s| && CallsTools(s[i]) ==> Answered(s, i)
  }

  ghost predicate WellFormed(s: seq<Message>) {
    NoSystem(s) && ToolsHeaded(s) && CallsFollow(s) && CallsAnswered(s)
  }

  // ----- the repair as functions

  /** Whether the first pass keeps `m` after the messages it has `kept` so far. */
  predicate Admits(kept: seq<Message>, m: Message) {
    match m.role
    case System => false
    case Tool => EndsInToolRun(kept)
    case Assistant => m.calls == [] || (kept != [] && UserOrTool(kept[|kept| - 1]))
    case _ => true
  }

  function FirstPass(h: seq<Message>): seq<Message> {
    if h == [] then []
    else
      var kept := FirstPass(h[..|h| - 1]);
      var m := h[|h| - 1];
      if Admits(kept, m) then kept + [m] else kept
  }

  /** The second pass, from position `i` on: it drops a tool-calling message with its run unless all calls are answered. */
  ghost function SecondPass(s: seq<Message>, i: nat): seq<Message>
    requires i <= |s|
    decreases |s| - i
  {
    if i == |s| then []
    else if CallsTools(s[i]) && !Answered(s, i) then SecondPass(s, i + 1 + RunFrom(s, i + 1))
    else [s[i]] + SecondPass(s, i + 1)
  }

  ghost function Sanitize(h: seq<Message>): seq<Message> {
    SecondPass(FirstPass(h), 0)
  }

  // ----- the repair as it runs

  method SanitizeHistoryForProvider(history: seq<Message>) returns (final: seq<Message>)
    ensures final == Sanitize(history)
  {
    if |history| == 0 {
      return history;
    }
    var sanitized := AdmitAll(history);
    final := [];
    var i := 0;
    while i < |sanitized|
      invariant 0 <= i <= |sanitized|
      invariant final + SecondPass(sanitized, i) == SecondPass(sanitized, 0)
    {
      hide Answered, CallsTools, FirstPass;
      var msg := sanitized[i];
      assert final + ([msg] + SecondPass(sanitized, i + 1)) == final + [msg] + SecondPass(sanitized, i + 1);
      if CallsTools(msg) {
        var allFound, toolMsgCount := CheckAnswers(sanitized, i);
        if !allFound {
          i := i + toolMsgCount + 1;
          continue;
        }
      }
      final := final + [msg];
      i := i + 1;
    }
  }

  /** The loop of the first pass. */
  method AdmitAll(history: seq<Message>) returns (sanitized: seq<Message>)
    ensures sanitized == FirstPass(history)
  {
    sanitized := [];
    for n := 0 to |history|
      invariant sanitized == FirstPass(history[..n])
    {
      assert history[..n + 1][..n] == history[..n];
      var msg := history[n];
      match msg.role {
        case System =>
          continue;
        case Tool =>
          if |sanitized| == 0 {
            continue;
          }
          var foundAssistant := FindAssistant(sanitized);
          if !foundAssistant {
            continue;
          }
          sanitized := sanitized + [msg];
        case Assistant =>
          if |msg.calls| > 0 {
            if |sanitized| == 0 {
              continue;
            }
            var prev := sanitized[|sanitized| - 1];
            if !prev.role.User? && !prev.role.Tool? {
              continue;
            }
          }
          sanitized := sanitized + [msg];
        case _ =>
          sanitized := sanitized + [msg];
      }
    }
    assert history[..|history|] == history;
  }

  /** Walks back over tool messages to the nearest other message. */
  method FindAssistant(sanitized: seq<Message>) returns (foundAssistant: bool)
    ensures foundAssistant == EndsInToolRun(sanitized)
  {
    foundAssistant := false;
    assert sanitized[..|sanitized|] == sanitized;
    var i := |sanitized| - 1;
    while i >= 0
      invariant -1 <= i < |sanitized|
      invariant EndsInToolRun(sanitized) == EndsInToolRun(sanitized[..i + 1])
    {
      assert sanitized[..i + 1][..i] == sanitized[..i];
      if sanitized[i].role.Tool? {
        i := i - 1;
        continue;
      }
      if sanitized[i].role.Assistant? && |sanitized[i].calls| > 0 {
        foundAssistant := true;
      }
      return;
    }
  }

  /** Fills the map of expected call ids from the run after `i`, and counts that run. */
  method CheckAnswers(s: seq<Message>, i: nat) returns (allFound: bool, toolMsgCount: nat)
    requires i < |s|
    ensures allFound <==> Answered(s, i)
    ensures toolMsgCount == RunFrom(s, i + 1)
  {
    var expected: map<string, bool> := map[];
    for n := 0 to |s[i].calls|
      invariant expected.Keys == set k | 0 <= k < n :: s[i].calls[k]
      invariant forall id :: id in expected ==> !expected[id]
    {
      expected := expected[s[i].calls[n] := false];
    }
    toolMsgCount := 0;
    var j := i + 1;
    while j < |s| && s[j].role.Tool?
      invariant i < j <= |s| && toolMsgCount == j - i - 1
      invariant RunFrom(s, i + 1) == toolMsgCount + RunFrom(s, j)
      invariant expected.Keys == set k | 0 <= k < |s[i].calls| :: s[i].calls[k]
      invariant forall id :: id in expected ==> (expected[id] <==> exists k :: i < k < j && s[k].callId == id)
    {
      toolMsgCount := toolMsgCount + 1;
      if s[j].callId in expected {
        expected := expected[s[j].callId := true];
      }
      j := j + 1;
    }
    allFound := forall id <- expected.Keys :: expected[id];
    if allFound {
      forall id | id in s[i].calls
        ensures exists k :: i < k <= i + RunFrom(s, i + 1) && s[k].callId == id
      {
        assert id in expected && expected[id];
      }
    } else {
      var id :| id in expected && !expected[id];
      assert id in s[i].calls;
    }
  }
}

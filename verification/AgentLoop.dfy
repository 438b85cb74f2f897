/**
 The agent loop: it calls the model, retries, compresses the stored history when the context is full,
 executes tool calls and feeds their results back. Replies, errors, tool results and what other
 goroutines do to the stored history meanwhile are arbitrary.
 */
module AgentLoop {
  import opened Basics
  import Runes
  import opened History
  import opened HistoryRepair

  /** What the model returns: an answer (with the ids of its tool calls) or a class of error. */
  datatype Reply =
    | Answer(content: string, reasoning: string, calls: seq<string>)
    | TimedOut
    | ContextFull
    | Failed

  /**
   Everything outside the loop, indexed by the number of model calls made so far: the model's replies,
   the results of the tool calls, the text of the system prompt, and what concurrent summarisation
   makes of the stored history while the model is being called.
   */
  datatype Environment = Environment(
    reply: nat -> Reply,
    result: (nat, nat) -> string,
    prompt: (nat, string) -> string,
    others: (nat, seq<Message>) -> seq<Message>)

  datatype Loop = Loop(
    messages: seq<Message>,        // the request under construction
    history: seq<Message>,         // the stored session
    summary: string,
    attempts: nat,                 // model calls made so far
    requests: seq<seq<Message>>)   // what was sent, in order

  datatype Outcome = Outcome(loop: Loop, content: string, failed: bool)

  const MAX_RETRIES: nat := 2

  // ----- building a request

  function UserMessage(content: string): Message { Message(User, content, [], "") }

  function AssistantMessage(content: string, calls: seq<string>): Message { Message(Assistant, content, calls, "") }

  function ToolMessage(content: string, id: string): Message { Message(Tool, content, [], id) }

  ghost function Build(history: seq<Message>, prompt: string, current: string): seq<Message> {
    [Message(System, prompt, [], "")] + Sanitize(history)
    + if Runes.TrimSpace(current) != "" then [UserMessage(current)] else []
  }

  /** One system message at the head, every tool call answered right after it, no orphaned tool message. */
  ghost predicate Acceptable(request: seq<Message>) {
    request != [] && request[0].role.System? && Paired(request[1..])
  }

  lemma BuildIsAcceptable(history: seq<Message>, prompt: string, current: string)
    ensures Acceptable(Build(history, prompt, current))
  {
    hide Sanitize, Answered, EndsInToolRun;
    SanitizeIsWellFormed(history);
    var body := Sanitize(history);
    if Runes.TrimSpace(current) != "" {
      AppendPlain(body, UserMessage(current));
      assert Build(history, prompt, current)[1..] == body + [UserMessage(current)];
    } else {
      assert Build(history, prompt, current)[1..] == body;
    }
  }

  /** The prompt comes first, then the repaired history with all its plain messages, then what the user says now unless it is blank. */
  lemma BuildHolds(history: seq<Message>, prompt: string, current: string)
    ensures var request := Build(history, prompt, current); var said := Runes.TrimSpace(current) != "";
      && |request| >= 1 && request[0] == Message(System, prompt, [], "")
      && Plain(request[1..]) == Plain(history) + (if said then [Message(User, current, [], "")] else [])
      && (said ==> |request| >= 2 && request[|request| - 1] == Message(User, current, [], ""))
  {
    hide Sanitize, Plain;
    SanitizeKeepsPlain(history);
    var request := Build(history, prompt, current);
    if Runes.TrimSpace(current) != "" {
      var user := UserMessage(current);
      assert request[1..] == Sanitize(history) + [user];
      PlainConcat(Sanitize(history), [user]);
      PlainOne(user);
    } else {
      assert request[1..] == Sanitize(history);
    }
  }

  method BuildMessages(history: seq<Message>, prompt: string, current: string) returns (messages: seq<Message>)
    ensures messages == Build(history, prompt, current)
  {
    var sanitized := SanitizeHistoryForProvider(history);
    messages := [Message(System, prompt, [], "")];
    messages := messages + sanitized;
    if Runes.TrimSpace(current) != "" {
      messages := messages + [UserMessage(current)];
    }
  }

  // ----- emergency compression

  function Decimal(n: nat): string {
    if n < 10 then ["0123456789"[n]] else Decimal(n / 10) + ["0123456789"[n % 10]]
  }

  function CompressionNote(dropped: nat): string {
    "\n\n[System Note: Emergency compression dropped " + Decimal(dropped) + " oldest messages due to context limit]"
  }

  /** Drops the older half of what lies between the first and the last message, and notes it in the first. */
  function Compress(history: seq<Message>): seq<Message> {
    if |history| <= 4 then history
    else
      var mid := (|history| - 2) / 2;
      [history[0].(content := history[0].content + CompressionNote(mid))] + history[1 + mid..]
  }

  /** `c` is `h` with the older half of its inner messages dropped, and a note after the content of the first. */
  ghost predicate Halved(h: seq<Message>, c: seq<Message>) {
    var dropped := (|h| - 2) / 2;
    && |h| > 4 && |c| == |h| - dropped
    && c[1..] == h[1 + dropped..]
    && c[0] == h[0].(content := c[0].content) && h[0].content < c[0].content
  }

  /** Compression makes progress, and keeps the newer half and in particular the last message. */
  lemma CompressKeepsRecent(h: seq<Message>)
    ensures |h| <= 4 ==> Compress(h) == h
    ensures |h| > 4 ==> Halved(h, Compress(h)) && 4 <= |Compress(h)| < |h| && Compress(h)[|Compress(h)| - 1] == h[|h| - 1]
  {
    if |h| > 4 {
      assert Compress(h)[0].content == h[0].content + CompressionNote((|h| - 2) / 2);
      assert |CompressionNote((|h| - 2) / 2)| > 0;
    }
  }

  /** The digits of a number denote it. */
  function Denoted(s: string): int {
    if s == "" then 0 else 10 * Denoted(s[..|s| - 1]) + (s[|s| - 1] as int - '0' as int)
  }

  lemma {:induction false} DecimalDenotes(n: nat)
    ensures Denoted(Decimal(n)) == n && Decimal(n) != ""
    ensures forall k :: 0 <= k < |Decimal(n)| ==> '0' <= Decimal(n)[k] <= '9'
  {
    if n < 10 {
      assert Decimal(n)[..0] == "";
    } else {
      DecimalDenotes(n / 10);
      assert Decimal(n)[..|Decimal(n)| - 1] == Decimal(n / 10);
    }
  }

  // ----- the loop as functions

  /** One model call: the request is recorded, and the stored history may have changed when it returns. */
  function Call(l: Loop, env: Environment): Loop {
    l.(requests := l.requests + [l.messages], attempts := l.attempts + 1, history := env.others(l.attempts, l.history))
  }

  ghost function Rebuild(l: Loop, env: Environment): Loop {
    var history := Compress(l.history);
    l.(history := history, messages := Build(history, env.prompt(l.attempts, l.summary), ""))
  }

  /** The calls of one iteration, starting with the given number of retries made. */
  ghost function CallWithRetries(l: Loop, env: Environment, retry: nat): (Loop, Reply)
    requires retry <= MAX_RETRIES
    decreases MAX_RETRIES - retry
  {
    var called, reply := Call(l, env), env.reply(l.attempts);
    if reply.TimedOut? && retry < MAX_RETRIES then CallWithRetries(called, env, retry + 1)
    else if reply.ContextFull? && retry < MAX_RETRIES then CallWithRetries(Rebuild(called, env), env, retry + 1)
    else (called, reply)
  }

  /** The tool messages that answer `calls`, in order. */
  function Results(calls: seq<string>, env: Environment, attempts: nat): (r: seq<Message>)
    ensures |r| == |calls|
    ensures forall k :: 0 <= k < |calls| ==> r[k] == ToolMessage(env.result(attempts, k), calls[k])
  {
    if calls == [] then []
    else
      var last := |calls| - 1;
      Results(calls[..last], env, attempts) + [ToolMessage(env.result(attempts, last), calls[last])]
  }

  function Turn(reply: Reply, env: Environment, attempts: nat): seq<Message>
    requires reply.Answer?
  {
    [AssistantMessage(reply.content, reply.calls)] + Results(reply.calls, env, attempts)
  }

  function Append(l: Loop, turn: seq<Message>): Loop {
    l.(messages := l.messages + turn, history := l.history + turn)
  }

  function FinalContent(reply: Reply): string
    requires reply.Answer?
  {
    if reply.content == "" && reply.reasoning != "" then reply.reasoning else reply.content
  }

  /** The remaining iterations of the loop. */
  ghost function Iterate(l: Loop, env: Environment, left: nat): Outcome
    decreases left
  {
    if left == 0 then Outcome(l, "", false)
    else
      var (called, reply) := CallWithRetries(l, env, 0);
      if !reply.Answer? then Outcome(called, "", true)
      else if reply.calls == [] then Outcome(called, FinalContent(reply), false)
      else Iterate(Append(called, Turn(reply, env, called.attempts)), env, left - 1)
  }

  // ----- what every run keeps

  ghost predicate AllAcceptable(requests: seq<seq<Message>>) {
    forall k :: 0 <= k < |requests| ==> Acceptable(requests[k])
  }

  lemma {:induction false} RetriesKeepAcceptable(l: Loop, env: Environment, retry: nat)
    requires retry <= MAX_RETRIES && Acceptable(l.messages) && AllAcceptable(l.requests)
    ensures var (called, _) := CallWithRetries(l, env, retry);
      && Acceptable(called.messages) && AllAcceptable(called.requests)
      && |called.requests| <= |l.requests| + MAX_RETRIES + 1 - retry
    decreases MAX_RETRIES - retry
  {
    hide Acceptable, Build, Compress;
    var called, reply := Call(l, env), env.reply(l.attempts);
    if reply.TimedOut? && retry < MAX_RETRIES {
      RetriesKeepAcceptable(called, env, retry + 1);
    } else if reply.ContextFull? && retry < MAX_RETRIES {
      BuildIsAcceptable(Compress(called.history), env.prompt(called.attempts, called.summary), "");
      RetriesKeepAcceptable(Rebuild(called, env), env, retry + 1);
    }
  }

  lemma TurnIsComplete(reply: Reply, env: Environment, attempts: nat)
    requires reply.Answer? && reply.calls != []
    ensures IsTurn(Turn(reply, env, attempts))
  {
    var t := Turn(reply, env, attempts);
    forall id | id in t[0].calls ensures exists k :: 0 < k < |t| && t[k].callId == id {
      var j :| 0 <= j < |reply.calls| && reply.calls[j] == id;
      assert t[j + 1].callId == id;
    }
  }

  lemma AppendKeepsAcceptable(request: seq<Message>, turn: seq<Message>)
    requires Acceptable(request) && IsTurn(turn)
    ensures Acceptable(request + turn)
  {
    hide Paired, IsTurn;
    AppendTurn(request[1..], turn);
    assert (request + turn)[1..] == request[1..] + turn;
  }

  /** Every request of every run is acceptable, and there are at most three for each iteration. */
  lemma {:induction false} RunsSendAcceptable(l: Loop, env: Environment, left: nat)
    requires Acceptable(l.messages) && AllAcceptable(l.requests)
    ensures var end := Iterate(l, env, left).loop;
      && Acceptable(end.messages) && AllAcceptable(end.requests)
      && |end.requests| <= |l.requests| + (MAX_RETRIES + 1) * left
    decreases left
  {
    hide Acceptable, CallWithRetries, Turn;
    if left == 0 {
    } else {
      var (called, reply) := CallWithRetries(l, env, 0);
      RetriesKeepAcceptable(l, env, 0);
      if reply.Answer? && reply.calls != [] {
        var turn := Turn(reply, env, called.attempts);
        TurnIsComplete(reply, env, called.attempts);
        AppendKeepsAcceptable(called.messages, turn);
        RunsSendAcceptable(Append(called, turn), env, left - 1);
      }
    }
  }

  // ----- what a run does after each reply

  predicate Retriable(reply: Reply) { reply.TimedOut? || reply.ContextFull? }

  /** A timeout with a retry left: the same request goes out again. */
  lemma TimeoutRepeats(l: Loop, env: Environment, retry: nat)
    requires retry < 2 && env.reply(l.attempts).TimedOut?
    ensures var requests := CallWithRetries(l, env, retry).0.requests;
      |requests| >= |l.requests| + 2 && requests[|l.requests|] == l.messages && requests[|l.requests| + 1] == l.messages
  {
    hide CallWithRetries, Build, Compress;
    RetriesUnfold(l, env, retry);
    CallsKeepRequests(Call(l, env), env, retry + 1);
    PrefixOfPrefix(l, Call(l, env), CallWithRetries(l, env, retry).0);
  }

  /**
   A full context with a retry left: the stored history (as it is when the call returns) is halved, unless it has at
   most four messages, the result is stored, and the next request is the system prompt and the repair of the result.
   */
  lemma FullContextCompresses(l: Loop, env: Environment, retry: nat) returns (shorter: seq<Message>)
    requires retry < 2 && env.reply(l.attempts).ContextFull?
    ensures var stored := env.others(l.attempts, l.history);
      if |stored| > 4 then Halved(stored, shorter) else shorter == stored
    ensures var request := [Message(System, env.prompt(l.attempts + 1, l.summary), [], "")] + Sanitize(shorter);
      CallWithRetries(l, env, retry)
      == CallWithRetries(Loop(request, shorter, l.summary, l.attempts + 1, l.requests + [l.messages]), env, retry + 1)
    ensures var requests := CallWithRetries(l, env, retry).0.requests;
      && |requests| >= |l.requests| + 2 && requests[|l.requests|] == l.messages
      && requests[|l.requests| + 1] == [Message(System, env.prompt(l.attempts + 1, l.summary), [], "")] + Sanitize(shorter)
    ensures !Retriable(env.reply(l.attempts + 1)) ==>
      CallWithRetries(l, env, retry).0.history == env.others(l.attempts + 1, shorter)
  {
    hide CallWithRetries, Sanitize, Compress, Halved;
    var called := Call(l, env);
    shorter := Compress(called.history);
    CompressKeepsRecent(called.history);
    RetriesUnfold(l, env, retry);
    RebuiltRequest(shorter, env.prompt(called.attempts, called.summary));
    var rebuilt := Rebuild(called, env);
    RetriesUnfold(rebuilt, env, retry + 1);
    CallsKeepRequests(rebuilt, env, retry + 1);
    PrefixOfPrefix(l, rebuilt, CallWithRetries(l, env, retry).0);
  }

  /** The calls of an iteration: requests are only added, and the first is the one under construction. */
  lemma {:induction false} CallsKeepRequests(l: Loop, env: Environment, retry: nat)
    requires retry <= MAX_RETRIES
    ensures var requests := CallWithRetries(l, env, retry).0.requests;
      |requests| > |l.requests| && requests[..|l.requests|] == l.requests && requests[|l.requests|] == l.messages
    decreases MAX_RETRIES - retry
  {
    hide Build, Compress;
    var called, reply := Call(l, env), env.reply(l.attempts);
    assert called.requests[|l.requests|] == l.messages && called.requests[..|l.requests|] == l.requests;
    if reply.TimedOut? && retry < MAX_RETRIES {
      CallsKeepRequests(called, env, retry + 1);
      PrefixOfPrefix(l, called, CallWithRetries(called, env, retry + 1).0);
    } else if reply.ContextFull? && retry < MAX_RETRIES {
      CallsKeepRequests(Rebuild(called, env), env, retry + 1);
      PrefixOfPrefix(l, called, CallWithRetries(Rebuild(called, env), env, retry + 1).0);
    }
  }

  /** An iteration makes up to three calls and stops at the first reply that is neither a timeout nor a full context. */
  lemma {:induction false} RetriesExactly(l: Loop, env: Environment, retry: nat) returns (n: nat)
    requires retry <= 2
    ensures var (called, reply) := CallWithRetries(l, env, retry);
      && 1 <= n <= 3 - retry && called.attempts == l.attempts + n && |called.requests| == |l.requests| + n
      && reply == env.reply(l.attempts + n - 1)
      && (forall i: nat :: l.attempts <= i < l.attempts + n - 1 ==> Retriable(env.reply(i)))
      && (n < 3 - retry ==> !Retriable(reply))
    decreases 2 - retry
  {
    hide Build, Compress;
    var called, reply := Call(l, env), env.reply(l.attempts);
    if Retriable(reply) && retry < 2 {
      var next := if reply.TimedOut? then called else Rebuild(called, env);
      n := RetriesExactly(next, env, retry + 1);
      n := n + 1;
    } else {
      n := 1;
    }
  }

  /** One turn: the assistant message as it came, and the result of each call, in order. */
  lemma TurnHolds(reply: Reply, env: Environment, attempts: nat)
    requires reply.Answer?
    ensures var turn := Turn(reply, env, attempts);
      && |turn| == 1 + |reply.calls| && turn[0] == Message(Assistant, reply.content, reply.calls, "")
      && forall k :: 0 < k < |turn| ==> turn[k] == Message(Tool, env.result(attempts, k - 1), [], reply.calls[k - 1])
  {
    hide Results;
    var results := Results(reply.calls, env, attempts);
    forall k | 0 < k <= |results|
      ensures Turn(reply, env, attempts)[k] == Message(Tool, env.result(attempts, k - 1), [], reply.calls[k - 1])
    {
      assert Turn(reply, env, attempts)[k] == results[k - 1];
    }
  }

  /** The loop after `k` iterations that all asked for tools. */
  ghost function AfterTurns(l: Loop, env: Environment, k: nat): Loop {
    if k == 0 then l
    else
      var (called, reply) := CallWithRetries(AfterTurns(l, env, k - 1), env, 0);
      if reply.Answer? then Append(called, Turn(reply, env, called.attempts)) else called
  }

  lemma {:induction false} LaterTurns(l: Loop, env: Environment, k: nat)
    ensures var (called, reply) := CallWithRetries(l, env, 0);
      reply.Answer? ==>
        AfterTurns(l, env, k + 1) == AfterTurns(Append(called, Turn(reply, env, called.attempts)), env, k)
  {
    hide CallWithRetries, Turn;
    if k == 0 {
      assert AfterTurns(l, env, 0) == l;
    } else {
      LaterTurns(l, env, k - 1);
    }
  }

  predicate AsksForTools(reply: Reply) { reply.Answer? && reply.calls != [] }

  /** The reply of iteration `k` asks for tools. */
  ghost predicate AsksAt(l: Loop, env: Environment, k: nat) {
    AsksForTools(CallWithRetries(AfterTurns(l, env, k), env, 0).1)
  }

  /**
   How a run ends: after some iterations that asked for tools, it fails on an error, or it answers with the content (the reasoning
   when the content is empty), or it has used up its iterations.
   */
  lemma {:induction false} RunEndsExactly(l: Loop, env: Environment, left: nat) returns (k: nat)
    ensures k <= left && forall j :: 0 <= j < k ==> AsksAt(l, env, j)
    ensures k == left ==> Iterate(l, env, left) == Outcome(AfterTurns(l, env, k), "", false)
    ensures k < left ==>
      var (called, reply) := CallWithRetries(AfterTurns(l, env, k), env, 0); var outcome := Iterate(l, env, left);
      && !AsksForTools(reply) && outcome.loop == called && outcome.failed == !reply.Answer?
      && (reply.Answer? ==> outcome.content == if reply.content != "" then reply.content else reply.reasoning)
    decreases left
  {
    hide CallWithRetries, Turn;
    k := 0;
    assert AfterTurns(l, env, 0) == l;
    if left == 0 {
    } else {
      var (called, reply) := CallWithRetries(l, env, 0);
      if AsksForTools(reply) {
        var next := Append(called, Turn(reply, env, called.attempts));
        var rest := RunEndsExactly(next, env, left - 1);
        forall j: nat | 0 < j < rest + 1 ensures AsksAt(l, env, j) {
          LaterTurns(l, env, j - 1);
          assert AsksAt(next, env, j - 1);
        }
        k := rest + 1;
        LaterTurns(l, env, rest);
        hide AfterTurns, Iterate;
        IterateUnfolds(l, env, left);
      }
    }
  }

  // ----- the message that triggered the run

  ghost predicate EndsIn(s: seq<Message>, m: Message) { s != [] && s[|s| - 1] == m }

  /** Whatever compression and repair do, a history that ends in a user message gives a request that ends in it. */
  lemma TriggerSurvives(history: seq<Message>, prompt: string)
    requires history != [] && history[|history| - 1].role.User?
    ensures var request := Build(Compress(history), prompt, "");
      EndsIn(request, history[|history| - 1])
  {
    hide Compress, Sanitize;
    var u := history[|history| - 1];
    CompressEnds(history, u);
    SanitizeEnds(Compress(history), u);
    assert Runes.TrimSpace("") == "";
  }

  lemma SanitizeEnds(history: seq<Message>, u: Message)
    requires EndsIn(history, u) && u.role.User?
    ensures EndsIn(Sanitize(history), u)
  {
    hide Sanitize, WellFormed;
    var older := history[..|history| - 1];
    var none: seq<Message> := [];
    assert older + [u] + none == history && [u] + none == [u];
    SanitizeSplitsAtPlain(older, u, none);
    LoneUserIsWellFormed(u);
    SanitizeIsIdentityExactly([u]);
  }

  lemma LoneUserIsWellFormed(u: Message)
    requires u.role.User?
    ensures WellFormed([u])
  {
  }

  // ----- the user's message in later iterations

  /** The last user message. */
  function LastUser(s: seq<Message>): Option<Message> {
    if s == [] then None
    else if s[|s| - 1].role.User? then Some(s[|s| - 1])
    else LastUser(s[..|s| - 1])
  }

  lemma {:induction false} LastUserAppend(a: seq<Message>, b: seq<Message>)
    ensures LastUser(a + b) == if LastUser(b).Some? then LastUser(b) else LastUser(a)
    decreases |b|
  {
    if b == [] {
      assert a + b == a;
    } else {
      assert (a + b)[..|a + b| - 1] == a + b[..|b| - 1];
      LastUserAppend(a, b[..|b| - 1]);
    }
  }

  /** Only plain messages matter for it. */
  lemma {:induction false} LastUserIsPlain(s: seq<Message>)
    ensures LastUser(Plain(s)) == LastUser(s)
    decreases |s|
  {
    if s == [] {
    } else {
      var most, last := s[..|s| - 1], s[|s| - 1];
      LastUserIsPlain(most);
      hide Plain, LastUser;
      LastUserAppend(Plain(most), Plain([last]));
      LastUserAppend(most, [last]);
      PlainConcat(most, [last]);
      assert s == most + [last];
      PlainOne(last);
    }
  }

  lemma PlainOne(m: Message)
    ensures Plain([m]) == if IsPlain(m) then [m] else []
    ensures LastUser(Plain([m])) == LastUser([m]) == if m.role.User? then Some(m) else None
  {
    var none: seq<Message> := [];
    assert [m][..0] == none;
  }

  lemma {:induction false} LastUserAt(h: seq<Message>, p: nat)
    requires p < |h| && h[p].role.User? && forall k :: p < k < |h| ==> !h[k].role.User?
    ensures LastUser(h) == Some(h[p])
    decreases |h|
  {
    if p == |h| - 1 {
    } else {
      LastUserAt(h[..|h| - 1], p);
    }
  }

  lemma {:induction false} NoUser(h: seq<Message>)
    requires forall k :: 0 <= k < |h| ==> !h[k].role.User?
    ensures LastUser(h) == None
    decreases |h|
  {
    if h == [] {
    } else {
      NoUser(h[..|h| - 1]);
    }
  }

  /** The repair never changes which user message is the last one. */
  lemma LastUserOfRequest(history: seq<Message>, prompt: string)
    ensures LastUser(Build(history, prompt, "")) == LastUser(history)
  {
    hide Sanitize, LastUser, Plain, Build;
    var system: seq<Message> := [Message(System, prompt, [], "")];
    SanitizeKeepsPlain(history);
    LastUserIsPlain(history);
    LastUserIsPlain(Sanitize(history));
    RebuiltRequest(history, prompt);
    LastUserAppend(system, Sanitize(history));
    NoUser(system);
  }

  /** A request that is rebuilt without a current message. */
  lemma RebuiltRequest(history: seq<Message>, prompt: string)
    ensures Build(history, prompt, "") == [Message(System, prompt, [], "")] + Sanitize(history)
  {
    hide Sanitize;
    assert Runes.TrimSpace("") == "";
  }

  /**
   After a compression, the request still asks the user's last question, unchanged, if that question lies in the
   newer half of the history; otherwise the last user message is the first message with the note, or there is none.
   */
  lemma TriggerAfterCompression(history: seq<Message>, prompt: string, p: nat)
    requires p < |history| && history[p].role.User? && forall k :: p < k < |history| ==> !history[k].role.User?
    ensures LastUser(Build(Compress(history), prompt, "")) ==
      if |history| <= 4 || p > (|history| - 2) / 2 then Some(history[p])
      else if history[0].role.User? then Some(Compress(history)[0])
      else None
  {
    hide Build, LastUser, CompressionNote;
    LastUserOfRequest(Compress(history), prompt);
    if |history| <= 4 {
      LastUserAt(history, p);
    } else {
      var first, newer := [Compress(history)[0]], history[1 + (|history| - 2) / 2..];
      LastUserAppend(first, newer);
      if p > (|history| - 2) / 2 {
        LastUserAt(newer, p - 1 - (|history| - 2) / 2);
      } else {
        NoUser(newer);
        if history[0].role.User? {
          LastUserAt(first, 0);
        } else {
          NoUser(first);
        }
      }
    }
  }

  lemma {:induction false} OrphansAreDropped(m: Message, tools: seq<Message>)
    requires IsPlain(m) && forall k :: 0 <= k < |tools| ==> tools[k].role.Tool?
    ensures FirstPass([m] + tools) == [m]
    decreases |tools|
  {
    var all := [m] + tools;
    if tools == [] {
      assert all == [m] && [m][..0] == [];
    } else {
      assert all[..|all| - 1] == [m] + tools[..|tools| - 1];
      OrphansAreDropped(m, tools[..|tools| - 1]);
    }
  }

  /** A greeting, a question, and one assistant message with five calls, all answered. */
  const FIVE_CALLS: seq<Message> := [
    AssistantMessage("hello", []), UserMessage("question"), AssistantMessage("", ["a", "b", "c", "d", "e"]),
    ToolMessage("1", "a"), ToolMessage("2", "b"), ToolMessage("3", "c"), ToolMessage("4", "d"), ToolMessage("5", "e")]

  /** In the second iteration a compression of that history loses the question, and with it every tool result. */
  lemma TriggerCanBeLost(prompt: string)
    ensures WellFormed(FIVE_CALLS)
    ensures var greeting := AssistantMessage("hello" + CompressionNote(3), []);
      Build(Compress(FIVE_CALLS), prompt, "") == [Message(System, prompt, [], ""), greeting]
  {
    hide CompressionNote, FirstPass, SecondPass, WellFormed;
    var greeting := AssistantMessage("hello" + CompressionNote(3), []);
    var orphans := FIVE_CALLS[4..];
    assert Compress(FIVE_CALLS) == [greeting] + orphans;
    OrphansAreDropped(greeting, orphans);
    LonePlainStays(greeting);
    RebuiltRequest(Compress(FIVE_CALLS), prompt);
    FiveCallsAreWellFormed();
  }

  lemma LonePlainStays(m: Message)
    requires IsPlain(m)
    ensures SecondPass([m], 0) == [m]
  {
    assert SecondPass([m], 1) == [];
  }

  lemma FiveCallsAreWellFormed()
    ensures WellFormed(FIVE_CALLS)
  {
    hide NoSystem, ToolsHeaded, CallsFollow, CallsAnswered, IsTurn;
    var hello, question, turn := FIVE_CALLS[0], FIVE_CALLS[1], FIVE_CALLS[2..];
    var none: seq<Message> := [];
    FiveCallsIsTurn(turn);
    NothingIsPaired();
    AppendPlain(none, hello);
    assert none + [hello] == [hello];
    AppendPlain([hello], question);
    assert [hello] + [question] == [hello, question];
    AppendTurn([hello, question], turn);
    PlainFollows(hello, question);
    TurnFollows([hello, question], turn);
    assert FIVE_CALLS == [hello, question] + turn;
  }

  lemma NothingIsPaired()
    ensures Paired([])
  {
  }

  lemma PlainFollows(a: Message, b: Message)
    requires IsPlain(a) && IsPlain(b)
    ensures CallsFollow([a, b])
  {
  }

  lemma FiveCallsIsTurn(turn: seq<Message>)
    requires turn == FIVE_CALLS[2..]
    ensures IsTurn(turn)
  {
    assert turn[1].callId == "a" && turn[2].callId == "b" && turn[3].callId == "c" && turn[4].callId == "d";
    assert turn[5].callId == "e";
  }

  /** Every request of the first iteration ends in the user's message, through every retry and compression. */
  lemma {:induction false} FirstIterationAsks(l: Loop, env: Environment, retry: nat, u: Message)
    requires retry <= MAX_RETRIES && u.role.User? && EndsIn(l.messages, u) && EndsIn(l.history, u)
    requires forall n, h :: EndsIn(h, u) ==> EndsIn(env.others(n, h), u)
    ensures var (called, _) := CallWithRetries(l, env, retry);
      forall k :: |l.requests| <= k < |called.requests| ==> EndsIn(called.requests[k], u)
    ensures var (called, _) := CallWithRetries(l, env, retry);
      |l.requests| < |called.requests| && called.requests[..|l.requests|] == l.requests
    decreases MAX_RETRIES - retry
  {
    hide Build, Compress;
    var called, reply := Call(l, env), env.reply(l.attempts);
    assert called.requests[|l.requests|] == l.messages;
    if reply.TimedOut? && retry < MAX_RETRIES {
      FirstIterationAsks(called, env, retry + 1, u);
      PrefixOfPrefix(l, called, CallWithRetries(called, env, retry + 1).0);
    } else if reply.ContextFull? && retry < MAX_RETRIES {
      TriggerSurvives(called.history, env.prompt(called.attempts, called.summary));
      CompressEnds(called.history, u);
      FirstIterationAsks(Rebuild(called, env), env, retry + 1, u);
      PrefixOfPrefix(l, called, CallWithRetries(Rebuild(called, env), env, retry + 1).0);
    }
  }

  lemma CompressEnds(h: seq<Message>, u: Message)
    requires EndsIn(h, u)
    ensures EndsIn(Compress(h), u)
  {
  }

  lemma PrefixOfPrefix(l: Loop, called: Loop, end: Loop)
    requires called.requests == l.requests + [l.messages]
    requires |called.requests| <= |end.requests| && end.requests[..|called.requests|] == called.requests
    ensures end.requests[..|l.requests|] == l.requests && end.requests[|l.requests|] == l.messages
  {
    assert end.requests[..|called.requests|][|l.requests|] == end.requests[|l.requests|];
    assert end.requests[..|l.requests|] == end.requests[..|called.requests|][..|l.requests|];
  }

  // ----- the request and the stored history stay in step

  /** `l'` differs from `l` by the same messages at the end of the request and of the stored history. */
  ghost predicate InStep(l: Loop, l': Loop) {
    && l.messages <= l'.messages && l.history <= l'.history
    && l'.messages[|l.messages|..] == l'.history[|l.history|..]
  }

  lemma InStepAppend(l: Loop, l': Loop, turn: seq<Message>)
    requires InStep(l, l')
    ensures InStep(l, Append(l', turn))
  {
    assert (l'.messages + turn)[|l.messages|..] == l'.messages[|l.messages|..] + turn;
    assert (l'.history + turn)[|l.history|..] == l'.history[|l.history|..] + turn;
  }

  lemma InStepTransitive(a: Loop, b: Loop, c: Loop)
    requires InStep(a, b) && InStep(b, c)
    ensures InStep(a, c)
  {
    assert c.messages[|a.messages|..] == b.messages[|a.messages|..] + c.messages[|b.messages|..];
    assert c.history[|a.history|..] == b.history[|a.history|..] + c.history[|b.history|..];
  }

  ghost predicate Undisturbed(env: Environment) {
    && (forall n :: !env.reply(n).ContextFull?)
    && (forall n, h :: env.others(n, h) == h)
  }

  lemma {:induction false} RetriesStayInStep(l: Loop, env: Environment, retry: nat)
    requires retry <= MAX_RETRIES && Undisturbed(env)
    ensures var (called, _) := CallWithRetries(l, env, retry);
      called.messages == l.messages && called.history == l.history
    decreases MAX_RETRIES - retry
  {
    var called, reply := Call(l, env), env.reply(l.attempts);
    if !reply.TimedOut? || retry == MAX_RETRIES {
    } else {
      RetriesStayInStep(called, env, retry + 1);
    }
  }

  /** Without compression and interference, a run stores exactly what it adds to the request. */
  lemma {:induction false} RunsStayInStep(l: Loop, env: Environment, left: nat)
    requires Undisturbed(env)
    ensures InStep(l, Iterate(l, env, left).loop)
    decreases left
  {
    hide CallWithRetries, Turn, Undisturbed, InStep;
    InStepRefl(l);
    if left == 0 {
    } else {
      var (called, reply) := CallWithRetries(l, env, 0);
      RetriesStayInStep(l, env, 0);
      SameStep(l, called);
      if reply.Answer? && reply.calls != [] {
        var turn := Turn(reply, env, called.attempts);
        InStepAppend(l, called, turn);
        RunsStayInStep(Append(called, turn), env, left - 1);
        InStepTransitive(l, Append(called, turn), Iterate(Append(called, turn), env, left - 1).loop);
      }
    }
  }

  lemma SameStep(l: Loop, l': Loop)
    requires l.messages == l'.messages && l.history == l'.history
    ensures InStep(l, l')
  {
  }

  lemma InStepRefl(l: Loop)
    ensures InStep(l, l)
  {
  }

  lemma IterateUnfolds(l: Loop, env: Environment, left: nat)
    requires left > 0
    ensures var (called, reply) := CallWithRetries(l, env, 0);
      Iterate(l, env, left) ==
        if !reply.Answer? then Outcome(called, "", true)
        else if reply.calls == [] then Outcome(called, FinalContent(reply), false)
        else Iterate(Append(called, Turn(reply, env, called.attempts)), env, left - 1)
  {
    hide CallWithRetries, Turn, FinalContent;
  }

  lemma NoneLeft(l: Loop, env: Environment)
    ensures Iterate(l, env, 0) == Outcome(l, "", false)
  {
  }

  lemma RetriesUnfold(l: Loop, env: Environment, retry: nat)
    requires retry <= MAX_RETRIES
    ensures var called, reply := Call(l, env), env.reply(l.attempts);
      CallWithRetries(l, env, retry) ==
        if reply.TimedOut? && retry < MAX_RETRIES then CallWithRetries(called, env, retry + 1)
        else if reply.ContextFull? && retry < MAX_RETRIES then CallWithRetries(Rebuild(called, env), env, retry + 1)
        else (called, reply)
  {
    hide Rebuild;
  }

  // ----- the loop as it runs

  class Agent {
    var history: seq<Message>
    var summary: string

    constructor (history: seq<Message>, summary: string)
      ensures this.history == history && this.summary == summary
    {
      this.history, this.summary := history, summary;
    }

    method ForceCompression()
      modifies this`history
      ensures history == Compress(old(history))
    {
      hide CompressionNote;
      if |history| <= 4 {
        return;
      }
      var conversation := history[1..|history| - 1];
      var mid := |conversation| / 2;
      var keptConversation := conversation[mid..];
      var enhanced := history[0].(content := history[0].content + CompressionNote(mid));
      var newHistory := [enhanced];
      newHistory := newHistory + keptConversation;
      newHistory := newHistory + [history[|history| - 1]];
      assert keptConversation + [history[|history| - 1]] == history[1 + mid..];
      assert newHistory == [enhanced] + (keptConversation + [history[|history| - 1]]);
      history := newHistory;
    }

    /** The state of the loop, given its local variables. */
    ghost function Now(messages: seq<Message>, attempts: nat, requests: seq<seq<Message>>): Loop
      reads this
    {
      Loop(messages, history, summary, attempts, requests)
    }

    /** The retry loop of one iteration. */
    method CallModel(messages0: seq<Message>, attempts0: nat, requests0: seq<seq<Message>>, env: Environment)
      returns (messages: seq<Message>, attempts: nat, requests: seq<seq<Message>>, response: Reply)
      modifies this`history
      ensures (Now(messages, attempts, requests), response)
           == CallWithRetries(old(Now(messages0, attempts0, requests0)), env, 0)
    {
      messages, attempts, requests := messages0, attempts0, requests0;
      response := Failed;
      ghost var start := Now(messages, attempts, requests);
      for retry := 0 to MAX_RETRIES + 1
        invariant summary == old(summary)
        invariant retry <= MAX_RETRIES ==>
          CallWithRetries(Now(messages, attempts, requests), env, retry) == CallWithRetries(start, env, 0)
        invariant retry == MAX_RETRIES + 1 ==>
          (Now(messages, attempts, requests), response) == CallWithRetries(start, env, 0)
      {
        hide CallWithRetries, Build, Compress;
        RetriesUnfold(Now(messages, attempts, requests), env, retry);
        requests := requests + [messages];
        response := env.reply(attempts);
        history := env.others(attempts, history);
        attempts := attempts + 1;
        if response.Answer? {
          break;
        }
        if response.TimedOut? && retry < MAX_RETRIES {
          continue;
        }
        if response.ContextFull? && retry < MAX_RETRIES {
          ForceCompression();
          messages := BuildMessages(history, env.prompt(attempts, summary), "");
          continue;
        }
        break;
      }
    }

    /** The tool results of one turn, appended to the request and saved one by one. */
    method AppendTurn(messages0: seq<Message>, response: Reply, env: Environment, attempts: nat)
      returns (messages: seq<Message>)
      requires response.Answer?
      modifies this`history
      ensures messages == messages0 + Turn(response, env, attempts)
      ensures history == old(history) + Turn(response, env, attempts)
    {
      var assistantMsg := AssistantMessage(response.content, response.calls);
      messages := messages0 + [assistantMsg];
      history := history + [assistantMsg];
      ghost var turn := Turn(response, env, attempts);
      for k := 0 to |response.calls|
        invariant messages == messages0 + turn[..k + 1]
        invariant history == old(history) + turn[..k + 1]
      {
        var toolResultMsg := ToolMessage(env.result(attempts, k), response.calls[k]);
        messages := messages + [toolResultMsg];
        history := history + [toolResultMsg];
        assert turn[..k + 2] == turn[..k + 1] + [toolResultMsg];
      }
      assert turn[..|response.calls| + 1] == turn;
    }

    method RunLLMIteration(messages0: seq<Message>, maxIterations: nat, env: Environment)
      returns (content: string, iteration: nat, failed: bool, ghost end: Loop)
      modifies this`history
      ensures Outcome(end, content, failed) == Iterate(old(Now(messages0, 0, [])), env, maxIterations)
      ensures history == end.history && iteration <= maxIterations
    {
      hide CallWithRetries, Iterate, Turn, FinalContent;
      iteration := 0;
      var messages, attempts := messages0, 0;
      var requests: seq<seq<Message>> := [];
      content, failed := "", false;
      ghost var start := Now(messages, attempts, requests);
      while iteration < maxIterations
        invariant iteration <= maxIterations && content == "" && !failed
        invariant Iterate(Now(messages, attempts, requests), env, maxIterations - iteration)
               == Iterate(start, env, maxIterations)
      {
        IterateUnfolds(Now(messages, attempts, requests), env, maxIterations - iteration);
        iteration := iteration + 1;
        var response;
        messages, attempts, requests, response := CallModel(messages, attempts, requests, env);
        if !response.Answer? {
          failed := true;
          break;
        }
        if |response.calls| == 0 {
          content := AnswerOf(response);
          break;
        }
        messages := AppendTurn(messages, response, env, attempts);
      }
      end := Now(messages, attempts, requests);
      if iteration == maxIterations && content == "" && !failed {
        NoneLeft(end, env);
      }
    }

    method AnswerOf(response: Reply) returns (content: string)
      requires response.Answer?
      ensures content == FinalContent(response)
      ensures content == "" <==> response.content == "" && response.reasoning == ""
      ensures response.content != "" ==> content == response.content
    {
      content := response.content;
      if content == "" && response.reasoning != "" {
        content := response.reasoning;
      }
    }

    /** One incoming message, from whatever is stored: every request that goes out is acceptable. */
    method RunAgentLoop(user: string, noHistory: bool, maxIterations: nat, defaultResponse: string, env: Environment)
      returns (content: string, failed: bool, ghost end: Loop)
      modifies this`history
      ensures AllAcceptable(end.requests) && |end.requests| <= 3 * maxIterations
      ensures var stored := old(history); var seen := if noHistory then [] else stored;
        var prompt := env.prompt(0, if noHistory then "" else summary);
        end == Iterate(Loop(Build(seen, prompt, user), stored + [UserMessage(user)], summary, 0, []), env, maxIterations).loop
      ensures history == end.history + if failed then [] else [AssistantMessage(content, [])]
    {
      hide Acceptable, Build, Iterate;
      var seen: seq<Message>, known := [], "";
      if !noHistory {
        seen, known := history, summary;
      }
      var messages := BuildMessages(seen, env.prompt(0, known), user);
      BuildIsAcceptable(seen, env.prompt(0, known), user);
      history := history + [UserMessage(user)];
      var iteration;
      RunsSendAcceptable(Now(messages, 0, []), env, maxIterations);
      content, iteration, failed, end := RunLLMIteration(messages, maxIterations, env);
      if failed {
        return;
      }
      if content == "" {
        content := defaultResponse;
      }
      history := history + [AssistantMessage(content, [])];
    }
  }
}

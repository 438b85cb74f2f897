/**
 What the repair of a history achieves: the result is well formed, nothing plain is lost, a well-formed
 history is left alone, and plain messages separate turns that are repaired independently.
 */
module HistoryRepair {
  import opened History

  // ----- runs of tool messages in a concatenation

  lemma {:induction false} RunFromAppend(a: seq<Message>, b: seq<Message>, i: nat)
    requires i <= |a| && (b == [] || !b[0].role.Tool?)
    ensures RunFrom(a + b, i) == RunFrom(a, i)
    decreases |a| - i
  {
    if i == |a| || !a[i].role.Tool? {
    } else {
      RunFromAppend(a, b, i + 1);
    }
  }

  lemma {:induction false} RunFromShift(a: seq<Message>, b: seq<Message>, i: nat)
    requires i <= |b|
    ensures RunFrom(a + b, |a| + i) == RunFrom(b, i)
    decreases |b| - i
  {
    if i == |b| || !b[i].role.Tool? {
    } else {
      RunFromShift(a, b, i + 1);
    }
  }

  lemma AnsweredAppend(a: seq<Message>, b: seq<Message>, i: nat)
    requires i < |a| && (b == [] || !b[0].role.Tool?)
    ensures Answered(a + b, i) <==> Answered(a, i)
  {
    hide RunFrom;
    RunFromAppend(a, b, i + 1);
    var n := RunFrom(a, i + 1);
    var s := a + b;
    assert forall k :: i <= k <= i + n ==> s[k] == a[k];
    if Answered(a, i) {
      forall id | id in s[i].calls ensures exists k :: i < k <= i + n && s[k].callId == id {
        var k :| i < k <= i + n && a[k].callId == id;
        assert s[k] == a[k];
      }
    }
    if Answered(s, i) {
      forall id | id in a[i].calls ensures exists k :: i < k <= i + n && a[k].callId == id {
        var k :| i < k <= i + n && s[k].callId == id;
        assert s[k] == a[k];
      }
    }
  }

  lemma AnsweredShift(a: seq<Message>, b: seq<Message>, i: nat)
    requires i < |b|
    ensures Answered(a + b, |a| + i) <==> Answered(b, i)
  {
    hide RunFrom;
    RunFromShift(a, b, i + 1);
    var n := RunFrom(b, i + 1);
    var m := |a| + i;
    if Answered(b, i) {
      forall id | id in (a + b)[m].calls ensures exists k :: m < k <= m + n && (a + b)[k].callId == id {
        var k :| i < k <= i + n && b[k].callId == id;
        assert (a + b)[|a| + k] == b[k];
      }
    }
    if Answered(a + b, m) {
      forall id | id in b[i].calls ensures exists k :: i < k <= i + n && b[k].callId == id {
        var k :| m < k <= m + n && (a + b)[k].callId == id;
        assert (a + b)[k] == b[k - |a|];
      }
    }
  }

  lemma {:induction false} EndsInToolRunShift(a: seq<Message>, b: seq<Message>)
    requires exists i :: 0 <= i < |b| && !b[i].role.Tool?
    ensures EndsInToolRun(a + b) <==> EndsInToolRun(b)
    decreases |b|
  {
    assert (a + b)[|a + b| - 1] == b[|b| - 1];
    if !b[|b| - 1].role.Tool? {
    } else {
      assert (a + b)[..|a + b| - 1] == a + b[..|b| - 1];
      var i :| 0 <= i < |b| && !b[i].role.Tool?;
      assert !b[..|b| - 1][i].role.Tool?;
      EndsInToolRunShift(a, b[..|b| - 1]);
    }
  }

  lemma {:induction false} RunEndsInToolRun(s: seq<Message>, i: nat, n: nat)
    requires i + n < |s| && CallsTools(s[i]) && forall k :: i < k <= i + n ==> s[k].role.Tool?
    ensures EndsInToolRun(s[..i + n + 1])
    decreases n
  {
    if n == 0 {
    } else {
      RunEndsInToolRun(s, i, n - 1);
      assert s[..i + n + 1][..i + n] == s[..i + n];
    }
  }

  // ----- appending to what is already acceptable

  /** What every request satisfies after its system message. */
  ghost predicate Paired(s: seq<Message>) { NoSystem(s) && ToolsHeaded(s) && CallsAnswered(s) }

  /** A tool-calling message with the run of tool messages that answers all its calls. */
  ghost predicate IsTurn(t: seq<Message>) {
    && t != [] && CallsTools(t[0]) && (forall k :: 0 < k < |t| ==> t[k].role.Tool?)
    && forall id :: id in t[0].calls ==> exists k :: 0 < k < |t| && t[k].callId == id
  }

  lemma AppendPlain(s: seq<Message>, m: Message)
    requires Paired(s) && IsPlain(m)
    ensures Paired(s + [m])
  {
    hide Answered, EndsInToolRun;
    forall i | 0 <= i < |s + [m]| && CallsTools((s + [m])[i]) ensures Answered(s + [m], i) {
      AnsweredAppend(s, [m], i);
    }
    forall i | 0 <= i < |s + [m]| && (s + [m])[i].role.Tool? ensures EndsInToolRun((s + [m])[..i]) {
      assert (s + [m])[..i] == s[..i];
    }
  }

  lemma AppendTurn(s: seq<Message>, t: seq<Message>)
    requires Paired(s) && IsTurn(t)
    ensures Paired(s + t)
  {
    hide Answered, EndsInToolRun;
    forall i | 0 <= i < |s + t| && CallsTools((s + t)[i]) ensures Answered(s + t, i) {
      if i < |s| {
        AnsweredAppend(s, t, i);
      } else {
        TurnAnswered(s, t);
      }
    }
    forall i | 0 <= i < |s + t| && (s + t)[i].role.Tool? ensures EndsInToolRun((s + t)[..i]) {
      if i < |s| {
        assert (s + t)[..i] == s[..i];
      } else {
        RunEndsInToolRun(s + t, |s|, i - |s| - 1);
      }
    }
  }

  lemma TurnAnswered(s: seq<Message>, t: seq<Message>)
    requires IsTurn(t)
    ensures Answered(s + t, |s|)
  {
    TurnRun(t, 1);
    assert Answered(t, 0);
    AnsweredShift(s, t, 0);
  }

  lemma {:induction false} TurnRun(t: seq<Message>, i: nat)
    requires i <= |t| && forall k :: i <= k < |t| ==> t[k].role.Tool?
    ensures RunFrom(t, i) == |t| - i
    decreases |t| - i
  {
    if i == |t| {
    } else {
      TurnRun(t, i + 1);
    }
  }

  lemma AppendFollows(s: seq<Message>, t: seq<Message>)
    requires CallsFollow(s) && t != [] && forall k :: 0 < k < |t| ==> !CallsTools(t[k])
    requires CallsTools(t[0]) ==> s != [] && UserOrTool(s[|s| - 1])
    ensures CallsFollow(s + t)
  {
  }

  // ----- the first pass

  ghost predicate Skeleton(s: seq<Message>) { NoSystem(s) && ToolsHeaded(s) && CallsFollow(s) }

  lemma {:induction false} FirstPassSkeleton(h: seq<Message>)
    ensures Skeleton(FirstPass(h))
    decreases |h|
  {
    if h == [] {
    } else {
      var kept, m := FirstPass(h[..|h| - 1]), h[|h| - 1];
      FirstPassSkeleton(h[..|h| - 1]);
      if Admits(kept, m) {
        SkeletonAppend(kept, m);
      }
    }
  }

  lemma SkeletonAppend(kept: seq<Message>, m: Message)
    requires Skeleton(kept) && Admits(kept, m)
    ensures Skeleton(kept + [m])
  {
    hide EndsInToolRun;
    var s := kept + [m];
    forall i | 0 <= i < |s| && s[i].role.Tool? ensures EndsInToolRun(s[..i]) {
      assert s[..i] == kept[..i];
      assert i == |kept| ==> kept[..i] == kept;
    }
  }

  // ----- the second pass

  lemma {:induction false} KeepsRun(s: seq<Message>, i: nat, n: nat)
    requires i + n <= |s| && forall k :: i <= k < i + n ==> s[k].role.Tool?
    ensures SecondPass(s, i) == s[i..i + n] + SecondPass(s, i + n)
    decreases n
  {
    hide Answered, RunFrom;
    if n == 0 {
      assert s[i..i] == [];
      assert [] + SecondPass(s, i) == SecondPass(s, i);
    } else {
      KeepsRun(s, i + 1, n - 1);
      var rest := SecondPass(s, i + n);
      assert SecondPass(s, i) == [s[i]] + SecondPass(s, i + 1);
      hide SecondPass;
      assert [s[i]] + (s[i + 1..i + n] + rest) == [s[i]] + s[i + 1..i + n] + rest;
      assert [s[i]] + s[i + 1..i + n] == s[i..i + n];
    }
  }

  /** In a skeleton a tool message never follows a plain one. */
  lemma PlainEndsRun(s: seq<Message>, i: nat)
    requires ToolsHeaded(s) && i + 1 < |s| && IsPlain(s[i])
    ensures !s[i + 1].role.Tool?
  {
    assert s[..i + 1][i] == s[i];
    assert !EndsInToolRun(s[..i + 1]);
  }

  /** The second pass may resume at `i` after the messages `acc`. */
  ghost predicate Resumes(acc: seq<Message>, s: seq<Message>, i: nat) {
    && i <= |s| && WellFormed(acc)
    && (i < |s| ==> !s[i].role.Tool?)
    && (i > 0 && UserOrTool(s[i - 1]) ==> acc != [] && UserOrTool(acc[|acc| - 1]))
  }

  lemma {:induction false} SecondPassExtends(acc: seq<Message>, s: seq<Message>, i: nat)
    requires Skeleton(s) && Resumes(acc, s, i)
    ensures WellFormed(acc + SecondPass(s, i))
    decreases |s| - i
  {
    hide Answered, EndsInToolRun, RunFrom, WellFormed, NoSystem, ToolsHeaded, UserOrTool;
    if i == |s| {
      assert acc + [] == acc;
    } else if CallsTools(s[i]) {
      var n := RunFrom(s, i + 1);
      RunFromSpec(s, i + 1);
      if Answered(s, i) {
        TurnResumes(acc, s, i);
        SecondPassExtends(acc + s[i..i + 1 + n], s, i + 1 + n);
        KeepsTurn(acc, s, i);
      } else {
        SecondPassExtends(acc, s, i + 1 + n);
      }
    } else {
      PlainResumes(acc, s, i);
      SecondPassExtends(acc + [s[i]], s, i + 1);
      assert acc + [s[i]] + SecondPass(s, i + 1) == acc + ([s[i]] + SecondPass(s, i + 1));
    }
  }

  lemma PlainResumes(acc: seq<Message>, s: seq<Message>, i: nat)
    requires Skeleton(s) && Resumes(acc, s, i) && i < |s| && !CallsTools(s[i])
    ensures Resumes(acc + [s[i]], s, i + 1)
  {
    hide Answered, EndsInToolRun;
    AppendPlain(acc, s[i]);
    AppendFollows(acc, [s[i]]);
    if i + 1 < |s| {
      PlainEndsRun(s, i);
    }
  }

  lemma AnswerOf(s: seq<Message>, i: nat, id: string) returns (k: nat)
    requires i < |s| && Answered(s, i) && id in s[i].calls
    ensures i < k <= i + RunFrom(s, i + 1) && k < |s| && s[k].callId == id
  {
    hide RunFrom;
    k :| i < k <= i + RunFrom(s, i + 1) && s[k].callId == id;
  }

  lemma TurnOf(s: seq<Message>, i: nat)
    requires i < |s| && CallsTools(s[i]) && Answered(s, i)
    ensures RunFrom(s, i + 1) > 0 && IsTurn(s[i..i + 1 + RunFrom(s, i + 1)])
  {
    hide RunFrom, Answered;
    var n := RunFrom(s, i + 1);
    RunFromSpec(s, i + 1);
    var t := s[i..i + 1 + n];
    assert t[0] == s[i];
    forall j | 0 < j < |t| ensures t[j].role.Tool? {
      assert t[j] == s[i + j];
    }
    forall id | id in t[0].calls ensures exists k :: 0 < k < |t| && t[k].callId == id {
      var k := AnswerOf(s, i, id);
      assert t[k - i] == s[k];
    }
    var k := AnswerOf(s, i, s[i].calls[0]);
  }

  lemma TurnResumes(acc: seq<Message>, s: seq<Message>, i: nat)
    requires Skeleton(s) && Resumes(acc, s, i) && i < |s| && CallsTools(s[i]) && Answered(s, i)
    ensures var n := RunFrom(s, i + 1); Resumes(acc + s[i..i + 1 + n], s, i + 1 + n)
  {
    hide Answered, EndsInToolRun, RunFrom, IsTurn, NoSystem, ToolsHeaded, CallsAnswered;
    var n := RunFrom(s, i + 1);
    var t := s[i..i + 1 + n];
    RunFromSpec(s, i + 1);
    TurnOf(s, i);
    AppendTurn(acc, t);
    TurnFollows(acc, t);
    assert t[n] == s[i + n];
  }

  lemma TurnFollows(acc: seq<Message>, t: seq<Message>)
    requires CallsFollow(acc) && IsTurn(t) && acc != [] && UserOrTool(acc[|acc| - 1])
    ensures CallsFollow(acc + t)
  {
    AppendFollows(acc, t);
  }

  lemma KeepsTurn(acc: seq<Message>, s: seq<Message>, i: nat)
    requires i < |s| && CallsTools(s[i]) && Answered(s, i)
    ensures var n := RunFrom(s, i + 1);
      acc + SecondPass(s, i) == acc + s[i..i + 1 + n] + SecondPass(s, i + 1 + n)
  {
    hide Answered, RunFrom;
    var n := RunFrom(s, i + 1);
    RunFromSpec(s, i + 1);
    KeepsRun(s, i + 1, n);
    TakeOne(s, i, n);
    var rest := SecondPass(s, i + 1 + n);
    assert [s[i]] + (s[i + 1..i + 1 + n] + rest) == s[i..i + 1 + n] + rest;
    assert acc + (s[i..i + 1 + n] + rest) == acc + s[i..i + 1 + n] + rest;
  }

  lemma TakeOne(s: seq<Message>, i: nat, n: nat)
    requires i + 1 + n <= |s|
    ensures s[i..i + 1 + n] == [s[i]] + s[i + 1..i + 1 + n]
  {
  }

  // ----- the repair

  /** Whatever the stored history looks like, the repaired one is well formed. */
  lemma SanitizeIsWellFormed(h: seq<Message>)
    ensures WellFormed(Sanitize(h))
  {
    var s := FirstPass(h);
    FirstPassSkeleton(h);
    if s != [] {
      assert s[..0] == [];
      assert !s[0].role.Tool?;
    }
    SecondPassExtends([], s, 0);
    assert [] + SecondPass(s, 0) == SecondPass(s, 0);
  }

  lemma {:induction false} FirstPassKeepsSkeleton(h: seq<Message>)
    requires Skeleton(h)
    ensures FirstPass(h) == h
    decreases |h|
  {
    hide EndsInToolRun;
    if h == [] {
    } else {
      var n := |h| - 1;
      SkeletonPrefix(h);
      FirstPassKeepsSkeleton(h[..n]);
      assert h == h[..n] + [h[n]];
      assert Admits(h[..n], h[n]);
      hide Skeleton, Admits;
    }
  }

  lemma SkeletonPrefix(h: seq<Message>)
    requires Skeleton(h) && h != []
    ensures Skeleton(h[..|h| - 1])
  {
    hide EndsInToolRun;
    var k := h[..|h| - 1];
    forall i | 0 <= i < |k| && k[i].role.Tool? ensures EndsInToolRun(k[..i]) {
      assert k[..i] == h[..i];
    }
  }

  lemma {:induction false} SecondPassKeepsAnswered(s: seq<Message>, i: nat)
    requires i <= |s| && CallsAnswered(s)
    ensures SecondPass(s, i) == s[i..]
    decreases |s| - i
  {
    hide Answered, RunFrom;
    if i == |s| {
    } else {
      SecondPassKeepsAnswered(s, i + 1);
    }
  }

  /** The repair leaves a history alone exactly when it is already well formed. */
  lemma SanitizeIsIdentityExactly(h: seq<Message>)
    ensures Sanitize(h) == h <==> WellFormed(h)
  {
    hide EndsInToolRun, Answered;
    if WellFormed(h) {
      FirstPassKeepsSkeleton(h);
      SecondPassKeepsAnswered(h, 0);
    } else {
      SanitizeIsWellFormed(h);
    }
  }

  lemma SanitizeIsIdempotent(h: seq<Message>)
    ensures Sanitize(Sanitize(h)) == Sanitize(h)
  {
    SanitizeIsWellFormed(h);
    SanitizeIsIdentityExactly(Sanitize(h));
  }

  // ----- nothing plain is lost

  /** The messages of `s` that are neither system nor tool messages and call no tools, in order. */
  function Plain(s: seq<Message>): seq<Message> {
    if s == [] then []
    else Plain(s[..|s| - 1]) + if IsPlain(s[|s| - 1]) then [s[|s| - 1]] else []
  }

  lemma {:induction false} PlainConcat(a: seq<Message>, b: seq<Message>)
    ensures Plain(a + b) == Plain(a) + Plain(b)
    decreases |b|
  {
    if b == [] {
      assert a + b == a;
    } else {
      assert (a + b)[..|a + b| - 1] == a + b[..|b| - 1];
      PlainConcat(a, b[..|b| - 1]);
    }
  }

  lemma {:induction false} FirstPassKeepsPlain(h: seq<Message>)
    ensures Plain(FirstPass(h)) == Plain(h)
    decreases |h|
  {
    if h == [] {
    } else {
      FirstPassKeepsPlain(h[..|h| - 1]);
      var kept := FirstPass(h[..|h| - 1]);
      PlainConcat(kept, [h[|h| - 1]]);
    }
  }

  lemma {:induction false} NoPlain(s: seq<Message>)
    requires forall k :: 0 <= k < |s| ==> !IsPlain(s[k])
    ensures Plain(s) == []
    decreases |s|
  {
    if s == [] {
    } else {
      NoPlain(s[..|s| - 1]);
    }
  }

  lemma {:induction false} SecondPassKeepsPlain(s: seq<Message>, i: nat)
    requires i <= |s|
    ensures Plain(SecondPass(s, i)) == Plain(s[i..])
    decreases |s| - i
  {
    hide Answered, RunFrom, Plain;
    if i == |s| {
      assert s[i..] == SecondPass(s, i);
    } else if CallsTools(s[i]) && !Answered(s, i) {
      var n := RunFrom(s, i + 1);
      RunFromSpec(s, i + 1);
      SecondPassKeepsPlain(s, i + 1 + n);
      NoPlain(s[i..i + 1 + n]);
      PlainConcat(s[i..i + 1 + n], s[i + 1 + n..]);
      assert s[i..] == s[i..i + 1 + n] + s[i + 1 + n..];
    } else {
      SecondPassKeepsPlain(s, i + 1);
      PlainConcat([s[i]], SecondPass(s, i + 1));
      PlainConcat([s[i]], s[i + 1..]);
      assert s[i..] == [s[i]] + s[i + 1..];
    }
  }

  /** The repair keeps every user message and every plain assistant message, in order, and adds none. */
  lemma SanitizeKeepsPlain(h: seq<Message>)
    ensures Plain(Sanitize(h)) == Plain(h)
  {
    hide Plain, SecondPass;
    var s := FirstPass(h);
    SecondPassKeepsPlain(s, 0);
    FirstPassKeepsPlain(h);
    assert s[0..] == s;
  }

  /** `a` is obtained from `b` by dropping messages: `at[k]` is where `a[k]` stood. */
  ghost predicate Subsequence(a: seq<Message>, b: seq<Message>, at: seq<nat>) {
    && |at| == |a|
    && (forall k :: 0 <= k < |a| ==> at[k] < |b| && a[k] == b[at[k]])
    && (forall j, k :: 0 <= j < k < |a| ==> at[j] < at[k])
  }

  lemma {:induction false} FirstPassDrops(h: seq<Message>) returns (at: seq<nat>)
    ensures Subsequence(FirstPass(h), h, at)
    decreases |h|
  {
    at := [];
    if h == [] {
    } else {
      at := FirstPassDrops(h[..|h| - 1]);
      if Admits(FirstPass(h[..|h| - 1]), h[|h| - 1]) {
        at := at + [|h| - 1];
      }
    }
  }

  lemma {:induction false} SecondPassDrops(s: seq<Message>, i: nat) returns (at: seq<nat>)
    requires i <= |s|
    ensures Subsequence(SecondPass(s, i), s, at) && forall k :: 0 <= k < |at| ==> i <= at[k]
    decreases |s| - i
  {
    hide Answered, RunFrom;
    at := [];
    if i == |s| {
    } else if CallsTools(s[i]) && !Answered(s, i) {
      at := SecondPassDrops(s, i + 1 + RunFrom(s, i + 1));
      hide Subsequence;
    } else {
      at := SecondPassDrops(s, i + 1);
      TakesNext(SecondPass(s, i + 1), s, at, i);
      at := [i] + at;
      hide Subsequence;
    }
  }

  lemma TakesNext(a: seq<Message>, b: seq<Message>, at: seq<nat>, i: nat)
    requires i < |b| && Subsequence(a, b, at) && forall k :: 0 <= k < |at| ==> i < at[k]
    ensures Subsequence([b[i]] + a, b, [i] + at)
  {
  }

  /** The repair only drops messages: it neither reorders, duplicates nor rewrites any. */
  lemma SanitizeOnlyDrops(h: seq<Message>)
    ensures exists at :: Subsequence(Sanitize(h), h, at)
  {
    hide FirstPass, SecondPass;
    var first := FirstPassDrops(h);
    var second := SecondPassDrops(FirstPass(h), 0);
    var at := seq(|second|, k requires 0 <= k < |second| => first[second[k]]);
    assert Subsequence(Sanitize(h), h, at);
  }

  // ----- plain messages separate what is repaired independently

  lemma {:induction false} FirstPassSplits(a: seq<Message>, p: Message, r: seq<Message>)
    requires IsPlain(p)
    ensures FirstPass(a + [p] + r) == FirstPass(a) + FirstPass([p] + r)
    ensures FirstPass([p] + r) != [] && FirstPass([p] + r)[0] == p
    decreases |r|
  {
    if r == [] {
      assert (a + [p] + r)[..|a|] == a;
      assert a + [p] + r == a + [p] && [p] + r == [p];
      assert [p][..0] == [];
    } else {
      var r', m := r[..|r| - 1], r[|r| - 1];
      FirstPassSplits(a, p, r');
      assert (a + [p] + r)[..|a + [p] + r| - 1] == a + [p] + r';
      assert ([p] + r)[..|r|] == [p] + r';
      var left, right := FirstPass(a), FirstPass([p] + r');
      AdmitsLocally(left, right, m);
      assert left + right + [m] == left + (right + [m]);
    }
  }

  lemma AdmitsLocally(left: seq<Message>, right: seq<Message>, m: Message)
    requires right != [] && IsPlain(right[0])
    ensures Admits(left + right, m) <==> Admits(right, m)
  {
    EndsInToolRunShift(left, right);
  }

  lemma {:induction false} SecondPassSplits(a: seq<Message>, b: seq<Message>, i: nat)
    requires i <= |a| && b != [] && !b[0].role.Tool?
    ensures SecondPass(a + b, i) == SecondPass(a, i) + SecondPass(b, 0)
    decreases |a| - i
  {
    hide Answered, RunFrom;
    if i == |a| {
      SecondPassShift(a, b, 0);
    } else {
      AnsweredAppend(a, b, i);
      RunFromAppend(a, b, i + 1);
      if CallsTools(a[i]) && !Answered(a, i) {
        SecondPassSplits(a, b, i + 1 + RunFrom(a, i + 1));
      } else {
        SecondPassSplits(a, b, i + 1);
        assert [a[i]] + (SecondPass(a, i + 1) + SecondPass(b, 0)) == [a[i]] + SecondPass(a, i + 1) + SecondPass(b, 0);
      }
    }
  }

  lemma {:induction false} SecondPassShift(a: seq<Message>, b: seq<Message>, i: nat)
    requires i <= |b|
    ensures SecondPass(a + b, |a| + i) == SecondPass(b, i)
    decreases |b| - i
  {
    hide Answered, RunFrom;
    if i == |b| {
    } else {
      AnsweredShift(a, b, i);
      RunFromShift(a, b, i + 1);
      assert (a + b)[|a| + i] == b[i];
      if CallsTools(b[i]) && !Answered(b, i) {
        SecondPassShift(a, b, i + 1 + RunFrom(b, i + 1));
        hide CallsTools;
      } else {
        SecondPassShift(a, b, i + 1);
        hide CallsTools;
      }
    }
  }

  /** What comes before a plain message and what comes from it on are repaired independently. */
  lemma SanitizeSplitsAtPlain(a: seq<Message>, p: Message, r: seq<Message>)
    requires IsPlain(p)
    ensures Sanitize(a + [p] + r) == Sanitize(a) + Sanitize([p] + r)
  {
    hide FirstPass, SecondPass;
    FirstPassSplits(a, p, r);
    SecondPassSplits(FirstPass(a), FirstPass([p] + r), 0);
  }

  /** A complete exchange survives the repair untouched, whatever surrounds it. */
  lemma CompleteExchangeSurvives(a: seq<Message>, u: Message, turn: seq<Message>, p: Message, r: seq<Message>)
    requires u.role.User? && IsTurn(turn) && IsPlain(p)
    ensures Sanitize(a + [u] + turn + [p] + r) == Sanitize(a) + ([u] + turn) + Sanitize([p] + r)
  {
    hide FirstPass, SecondPass;
    SanitizeSplitsAtPlain(a + [u] + turn, p, r);
    SanitizeSplitsAtPlain(a, u, turn);
    ExchangeIsWellFormed(u, turn);
    SanitizeIsIdentityExactly([u] + turn);
  }

  lemma ExchangeIsWellFormed(u: Message, turn: seq<Message>)
    requires u.role.User? && IsTurn(turn)
    ensures WellFormed([u] + turn)
  {
    hide Answered, EndsInToolRun;
    var none: seq<Message> := [];
    AppendPlain(none, u);
    assert none + [u] == [u];
    AppendTurn([u], turn);
    TurnFollows([u], turn);
  }

  // ----- interrupted turns

  /** A tool-calling message, some of whose calls the tool messages that follow it do not answer. */
  ghost predicate IsBroken(t: seq<Message>) {
    && t != [] && CallsTools(t[0]) && (forall k :: 0 < k < |t| ==> t[k].role.Tool?)
    && exists id :: id in t[0].calls && forall k :: 0 < k < |t| ==> t[k].callId != id
  }

  lemma BrokenUnanswered(s: seq<Message>, t: seq<Message>)
    requires IsBroken(t)
    ensures !Answered(s + t, |s|) && |s| + 1 + RunFrom(s + t, |s| + 1) == |s + t|
  {
    TurnRun(t, 1);
    assert !Answered(t, 0);
    AnsweredShift(s, t, 0);
    RunFromShift(s, t, 1);
  }

  lemma BrokenSkeleton(s: seq<Message>, t: seq<Message>)
    requires Skeleton(s) && IsBroken(t) && s != [] && UserOrTool(s[|s| - 1])
    ensures Skeleton(s + t)
  {
    hide EndsInToolRun;
    AppendFollows(s, t);
    forall i | 0 <= i < |s + t| && (s + t)[i].role.Tool? ensures EndsInToolRun((s + t)[..i]) {
      if i < |s| {
        assert (s + t)[..i] == s[..i];
      } else {
        RunEndsInToolRun(s + t, |s|, i - |s| - 1);
      }
    }
  }

  lemma {:induction false} SecondPassKeepsPrefix(s: seq<Message>, i: nat, n: nat)
    requires i <= n <= |s| && forall k :: 0 <= k < n && CallsTools(s[k]) ==> Answered(s, k)
    ensures SecondPass(s, i) == s[i..n] + SecondPass(s, n)
    decreases n - i
  {
    hide Answered, RunFrom;
    if i == n {
      assert s[i..n] == [];
      assert [] + SecondPass(s, n) == SecondPass(s, n);
    } else {
      SecondPassKeepsPrefix(s, i + 1, n);
      var rest := SecondPass(s, n);
      assert SecondPass(s, i) == [s[i]] + SecondPass(s, i + 1);
      hide SecondPass;
      assert [s[i]] + (s[i + 1..n] + rest) == [s[i]] + s[i + 1..n] + rest;
      assert [s[i]] + s[i + 1..n] == s[i..n];
    }
  }

  /** A turn that was cut off is dropped, and nothing before it. */
  lemma BrokenTurnIsDropped(h: seq<Message>, broken: seq<Message>)
    requires WellFormed(h) && h != [] && UserOrTool(h[|h| - 1]) && IsBroken(broken)
    ensures Sanitize(h + broken) == h
  {
    var s := h + broken;
    BrokenSkeleton(h, broken);
    FirstPassKeepsSkeleton(s);
    BrokenUnanswered(h, broken);
    hide FirstPass, Answered, RunFrom, EndsInToolRun;
    forall k | 0 <= k < |h| && CallsTools(s[k]) ensures Answered(s, k) {
      AnsweredAppend(h, broken, k);
    }
    SecondPassKeepsPrefix(s, 0, |h|);
    assert s[|h|] == broken[0] && s[0..|h|] == h;
    assert SecondPass(s, |h|) == [];
  }

  /** A stretch of complete turns survives, and an interrupted turn at its end goes, whatever surrounds them. */
  lemma InterruptedTurnIsDropped(a: seq<Message>, h: seq<Message>, broken: seq<Message>, p: Message, r: seq<Message>)
    requires WellFormed(h) && h != [] && IsPlain(h[0]) && UserOrTool(h[|h| - 1]) && IsBroken(broken) && IsPlain(p)
    ensures Sanitize(a + h + broken + [p] + r) == Sanitize(a) + h + Sanitize([p] + r)
  {
    hide Sanitize, WellFormed, IsBroken;
    SanitizeSplitsAtPlain(a + h + broken, p, r);
    assert a + [h[0]] + (h[1..] + broken) == a + h + broken;
    assert [h[0]] + (h[1..] + broken) == h + broken;
    SanitizeSplitsAtPlain(a, h[0], h[1..] + broken);
    BrokenTurnIsDropped(h, broken);
  }
}

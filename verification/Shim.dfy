/** What the shim does to a request and what it counts (internal/runtime/shim.go). */
module Shim {
  import opened Wrappers
  import opened Manifest

  // ----- the manifest's system prompt -----

  /** An element of the request's message list: an object with or without a role, or anything else. */
  datatype Message = Object(role: Option<string>, body: string) | Other(raw: string)

  const DEFAULT := "default"
  const PREPEND := "prepend"
  const OVERRIDE := "override"

  predicate IsSystem(m: Message) { m.Object? && m.role == Some("system") }

  function Ours(sp: SystemPrompt): Message { Object(Some("system"), sp.text) }

  function WithoutSystem(messages: seq<Message>): seq<Message> {
    if messages == [] then []
    else WithoutSystem(messages[..|messages| - 1])
         + if IsSystem(messages[|messages| - 1]) then [] else [messages[|messages| - 1]]
  }

  predicate HasSystem(messages: seq<Message>) { exists m | m in messages :: IsSystem(m) }

  datatype PromptError = UnknownMode

  /** The three policies; a request without a message list has the empty one. */
  function Inject(messages: seq<Message>, prompt: Option<SystemPrompt>): Result<seq<Message>, PromptError> {
    if prompt.None? then Ok(messages)
    else
      var sp := prompt.value;
      if sp.mode == DEFAULT then Ok(if HasSystem(messages) then messages else [Ours(sp)] + messages)
      else if sp.mode == PREPEND then Ok([Ours(sp)] + messages)
      else if sp.mode == OVERRIDE then Ok([Ours(sp)] + WithoutSystem(messages))
      else Err(UnknownMode)
  }

  lemma OneMoreMessage(messages: seq<Message>, i: nat)
    requires i < |messages|
    ensures HasSystem(messages[..i + 1]) <==> HasSystem(messages[..i]) || IsSystem(messages[i])
    ensures WithoutSystem(messages[..i + 1]) ==
            WithoutSystem(messages[..i]) + if IsSystem(messages[i]) then [] else [messages[i]]
  {
    assert messages[..i + 1] == messages[..i] + [messages[i]];
    assert messages[..i + 1][..i] == messages[..i];
    assert messages[i] in messages[..i + 1];
    assert forall m | m in messages[..i] :: m in messages[..i + 1];
  }

  method InjectSystemPrompt(messages: seq<Message>, prompt: Option<SystemPrompt>)
    returns (r: Result<seq<Message>, PromptError>)
    ensures r == Inject(messages, prompt)
  {
    if prompt.None? {
      return Ok(messages);
    }
    var sp := prompt.value;
    var hasSystem := false;
    var withoutSystem: seq<Message> := [];
    for i := 0 to |messages|
      invariant hasSystem <==> HasSystem(messages[..i])
      invariant withoutSystem == WithoutSystem(messages[..i])
    {
      OneMoreMessage(messages, i);
      if IsSystem(messages[i]) {
        hasSystem := true;
        continue;
      }
      withoutSystem := withoutSystem + [messages[i]];
    }
    assert messages[..|messages|] == messages;
    if sp.mode == DEFAULT {
      return Ok(if hasSystem then messages else [Ours(sp)] + messages);
    }
    if sp.mode == PREPEND {
      return Ok([Ours(sp)] + messages);
    }
    if sp.mode == OVERRIDE {
      return Ok([Ours(sp)] + withoutSystem);
    }
    r := Err(UnknownMode);
  }

  lemma {:induction false} WithoutSystemConcat(a: seq<Message>, b: seq<Message>)
    ensures WithoutSystem(a + b) == WithoutSystem(a) + WithoutSystem(b)
  {
    if b == [] {
      assert a + b == a;
    } else {
      assert (a + b)[..|a + b| - 1] == a + b[..|b| - 1];
      WithoutSystemConcat(a, b[..|b| - 1]);
    }
  }

  lemma {:induction false} NoneIsSystem(messages: seq<Message>)
    ensures !HasSystem(WithoutSystem(messages))
  {
    if messages != [] {
      NoneIsSystem(messages[..|messages| - 1]);
    }
  }

  lemma {:induction false} NothingToDrop(messages: seq<Message>)
    requires !HasSystem(messages)
    ensures WithoutSystem(messages) == messages
  {
    if messages != [] {
      var n := |messages| - 1;
      assert messages == messages[..n] + [messages[n]];
      assert messages[n] in messages;
      forall m | m in messages[..n] ensures !IsSystem(m) {
        assert m in messages;
      }
      NothingToDrop(messages[..n]);
    }
  }

  lemma OnlyOurs(sp: SystemPrompt, messages: seq<Message>)
    ensures WithoutSystem([Ours(sp)] + messages) == WithoutSystem(messages)
  {
    var ours := [Ours(sp)];
    WithoutSystemConcat(ours, messages);
    assert ours[..0] == [];
    assert WithoutSystem(ours) == [];
  }

  /** Whatever the mode, the caller's own turns arrive unchanged and in order. */
  lemma TurnsAreKept(messages: seq<Message>, prompt: Option<SystemPrompt>)
    requires Inject(messages, prompt).Ok?
    ensures WithoutSystem(Inject(messages, prompt).value) == WithoutSystem(messages)
  {
    if prompt.Some? {
      OnlyOurs(prompt.value, messages);
      OnlyOurs(prompt.value, WithoutSystem(messages));
      NoneIsSystem(messages);
      NothingToDrop(WithoutSystem(messages));
    }
  }

  /** Applying the policy again changes nothing exactly when it does not prepend. */
  lemma TwiceIsOnceExactly(messages: seq<Message>, prompt: Option<SystemPrompt>)
    requires Inject(messages, prompt).Ok?
    ensures var once := Inject(messages, prompt);
            Inject(once.value, prompt) == once <==> prompt.None? || prompt.value.mode != PREPEND
  {
    var once := Inject(messages, prompt).value;
    if prompt.Some? {
      var sp := prompt.value;
      if sp.mode == PREPEND {
        assert |[Ours(sp)] + once| == |once| + 1;
        assert sp.mode != DEFAULT;
      } else if sp.mode == OVERRIDE {
        TurnsAreKept(messages, prompt);
      } else if !HasSystem(messages) {
        assert once[0] in once && IsSystem(once[0]);
      }
    }
  }

  /**
   * What the engine sees first: the operator's prompt, unless there is none or the mode lets a caller's own
   * stand. Only override drops anything the caller said.
   */
  lemma OperatorSpeaksFirst(messages: seq<Message>, prompt: Option<SystemPrompt>)
    requires Inject(messages, prompt).Ok?
    ensures var out := Inject(messages, prompt).value;
            if prompt.None? || (prompt.value.mode == DEFAULT && HasSystem(messages)) then out == messages
            else
              && out != [] && out[0] == Object(Some("system"), prompt.value.text)
              && if prompt.value.mode == OVERRIDE then !HasSystem(out[1..]) else out[1..] == messages
  {
    if prompt.Some? && !(prompt.value.mode == DEFAULT && HasSystem(messages)) {
      var sp, out := prompt.value, Inject(messages, prompt).value;
      NoneIsSystem(messages);
      assert out[1..] == if sp.mode == OVERRIDE then WithoutSystem(messages) else messages;
    }
  }

  /** A policy is refused exactly when its mode is not one of the three. */
  lemma UnknownModesAreRefused(messages: seq<Message>, prompt: Option<SystemPrompt>)
    ensures Inject(messages, prompt).Err? <==>
            prompt.Some? && prompt.value.mode !in [DEFAULT, PREPEND, OVERRIDE]
  {
    assert forall mode :: mode in [DEFAULT, PREPEND, OVERRIDE] <==> mode == DEFAULT || mode == PREPEND || mode == OVERRIDE;
  }

  /** A message with any other role, or none, is never dropped. */
  lemma OtherRolesAreKept(messages: seq<Message>, prompt: Option<SystemPrompt>, m: Message)
    requires Inject(messages, prompt).Ok? && m in messages
    requires m.Other? || m.role != Some("system")
    ensures m in Inject(messages, prompt).value
  {
    KeptWithoutSystem(messages, m);
    if prompt.Some? && prompt.value.mode == OVERRIDE {
      assert m in [Ours(prompt.value)] + WithoutSystem(messages);
    }
  }

  lemma {:induction false} KeptWithoutSystem(messages: seq<Message>, m: Message)
    requires m in messages && (m.Other? || m.role != Some("system"))
    ensures m in WithoutSystem(messages)
  {
    var n := |messages| - 1;
    assert messages == messages[..n] + [messages[n]];
    if m in messages[..n] {
      KeptWithoutSystem(messages[..n], m);
    }
  }

  // ----- the loss counters -----

  datatype Key = Key(dialect: string, field: string)

  /** A recordLoss call: the keys it still has to count, and the counter it got for the first of them. */
  datatype Call = Call(todo: seq<Key>, held: Option<nat>)

  /** The concurrent map holds pointers; `cells` are the counters they point to. */
  datatype Counters = Counters(table: map<Key, nat>, cells: seq<nat>, calls: seq<Call>)

  datatype Step =
    | Enter(keys: seq<Key>)
    | LoadOrStore(c: nat)
    | Add(c: nat)

  predicate Enabled(s: Counters, step: Step) {
    match step
    case Enter(_) => true
    case LoadOrStore(c) => c < |s.calls| && s.calls[c].todo != [] && s.calls[c].held.None?
    case Add(c) => c < |s.calls| && s.calls[c].todo != [] && s.calls[c].held.Some?
                   && s.calls[c].held.value < |s.cells|
  }

  function Do(s: Counters, step: Step): Counters
    requires Enabled(s, step)
  {
    match step
    case Enter(keys) => s.(calls := s.calls + [Call(keys, None)])
    case LoadOrStore(c) =>
      var key := s.calls[c].todo[0];
      if key in s.table then s.(calls := s.calls[c := s.calls[c].(held := Some(s.table[key]))])
      else Counters(s.table[key := |s.cells|], s.cells + [0],
                    s.calls[c := s.calls[c].(held := Some(|s.cells|))])
    case Add(c) =>
      var cell := s.calls[c].held.value;
      s.(cells := s.cells[cell := s.cells[cell] + 1], calls := s.calls[c := Call(s.calls[c].todo[1..], None)])
  }

  const NO_LOSS := Counters(map[], [], [])

  function Run(steps: seq<Step>): Option<Counters> {
    if steps == [] then Some(NO_LOSS)
    else
      var before := Run(steps[..|steps| - 1]);
      var last := steps[|steps| - 1];
      if before.Some? && Enabled(before.value, last) then Some(Do(before.value, last)) else None
  }

  /** What /metrics prints for the key. */
  function Counted(s: Counters, key: Key): nat {
    if key in s.table && s.table[key] < |s.cells| then s.cells[s.table[key]] else 0
  }

  function Occurrences(keys: seq<Key>, key: Key): nat {
    if keys == [] then 0 else (if keys[0] == key then 1 else 0) + Occurrences(keys[1..], key)
  }

  function Pending(calls: seq<Call>, key: Key): nat {
    if calls == [] then 0
    else Pending(calls[..|calls| - 1], key) + Occurrences(calls[|calls| - 1].todo, key)
  }

  /** How often callers have reported the key. */
  function Reported(steps: seq<Step>, key: Key): nat {
    if steps == [] then 0
    else
      var last := steps[|steps| - 1];
      Reported(steps[..|steps| - 1], key) + if last.Enter? then Occurrences(last.keys, key) else 0
  }

  /** One counter per key, and whoever holds a counter holds its key's. */
  predicate Inv(s: Counters) {
    && (forall k | k in s.table :: s.table[k] < |s.cells|)
    && (forall k, l | k in s.table && l in s.table && s.table[k] == s.table[l] :: k == l)
    && (forall c | 0 <= c < |s.calls| && s.calls[c].held.Some? ::
          && s.calls[c].todo != [] && s.calls[c].todo[0] in s.table
          && s.calls[c].held.value == s.table[s.calls[c].todo[0]])
  }

  lemma StepKeepsInv(s: Counters, step: Step)
    requires Inv(s) && Enabled(s, step)
    ensures Inv(Do(s, step))
  {
    match step
    case Enter(_) =>
    case LoadOrStore(c) => LoadKeepsInv(s, c);
    case Add(_) =>
  }

  lemma LoadKeepsInv(s: Counters, c: nat)
    requires Inv(s) && Enabled(s, LoadOrStore(c))
    ensures Inv(Do(s, LoadOrStore(c)))
  {
    var t, key := Do(s, LoadOrStore(c)), s.calls[c].todo[0];
    assert forall k | k in s.table :: k in t.table && t.table[k] == s.table[k];
    assert forall d | 0 <= d < |s.calls| && d != c :: t.calls[d] == s.calls[d];
  }

  lemma {:induction false} PendingAfter(calls: seq<Call>, c: nat, now: Call, key: Key)
    requires c < |calls|
    ensures Pending(calls[c := now], key) ==
            Pending(calls, key) - Occurrences(calls[c].todo, key) + Occurrences(now.todo, key)
  {
    var n := |calls| - 1;
    if c < n {
      assert calls[c := now][..n] == calls[..n][c := now];
      PendingAfter(calls[..n], c, now, key);
    } else {
      assert calls[c := now][..n] == calls[..n];
    }
  }

  lemma StepConserves(s: Counters, step: Step, key: Key)
    requires Inv(s) && Enabled(s, step)
    ensures var t := Do(s, step);
            Counted(t, key) + Pending(t.calls, key) ==
            Counted(s, key) + Pending(s.calls, key) + if step.Enter? then Occurrences(step.keys, key) else 0
  {
    var t := Do(s, step);
    match step
    case Enter(keys) =>
      assert t.calls[..|t.calls| - 1] == s.calls;
    case LoadOrStore(c) =>
      PendingAfter(s.calls, c, t.calls[c], key);
    case Add(c) =>
      PendingAfter(s.calls, c, t.calls[c], key);
  }

  /**
   * No interleaving loses or invents a count: in every reachable state what is counted and what calls in
   * flight still have to count add up to what was reported, so an idle shim shows exactly that.
   */
  lemma {:induction false} CountsAreExact(steps: seq<Step>, key: Key)
    requires Run(steps).Some?
    ensures var s := Run(steps).value;
            && Inv(s)
            && Counted(s, key) + Pending(s.calls, key) == Reported(steps, key)
            && ((forall c | 0 <= c < |s.calls| :: s.calls[c].todo == []) ==> Counted(s, key) == Reported(steps, key))
  {
    if steps != [] {
      var n := |steps| - 1;
      CountsAreExact(steps[..n], key);
      StepKeepsInv(Run(steps[..n]).value, steps[n]);
      StepConserves(Run(steps[..n]).value, steps[n], key);
    }
    NothingPending(Run(steps).value.calls, key);
  }

  lemma {:induction false} NothingPending(calls: seq<Call>, key: Key)
    ensures (forall c | 0 <= c < |calls| :: calls[c].todo == []) ==> Pending(calls, key) == 0
  {
    if calls != [] {
      NothingPending(calls[..|calls| - 1], key);
    }
  }

  // ----- every call gets done -----

  /** Two steps per key still to count, one once its counter is held. */
  function Ahead(calls: seq<Call>): int {
    if calls == [] then 0
    else
      var last := calls[|calls| - 1];
      Ahead(calls[..|calls| - 1]) + 2 * |last.todo| - if last.held.Some? then 1 else 0
  }

  lemma {:induction false} AheadAfter(calls: seq<Call>, c: nat, now: Call)
    requires c < |calls|
    ensures Ahead(calls[c := now]) ==
            Ahead(calls) - (2 * |calls[c].todo| - if calls[c].held.Some? then 1 else 0)
            + 2 * |now.todo| - (if now.held.Some? then 1 else 0)
  {
    var n := |calls| - 1;
    if c < n {
      assert calls[c := now][..n] == calls[..n][c := now];
      AheadAfter(calls[..n], c, now);
    } else {
      assert calls[c := now][..n] == calls[..n];
    }
  }

  /** A call with something left to count can always take a step, and each step brings it one closer. */
  lemma CallsGoOn(steps: seq<Step>, c: nat) returns (step: Step)
    requires Run(steps).Some? && c < |Run(steps).value.calls| && Run(steps).value.calls[c].todo != []
    ensures !step.Enter? && step.c == c && Enabled(Run(steps).value, step)
    ensures Ahead(Do(Run(steps).value, step).calls) == Ahead(Run(steps).value.calls) - 1
  {
    CountsAreExact(steps, Run(steps).value.calls[c].todo[0]);
    var s := Run(steps).value;
    step := if s.calls[c].held.Some? then Add(c) else LoadOrStore(c);
    AheadAfter(s.calls, c, Do(s, step).calls[c]);
  }
}

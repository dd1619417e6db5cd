/**
 Concurrent uploads of a config (internal/api/config_handler.go:46-75). The handler checks and then
 saves, and nothing holds the two together: the model takes them as two steps that other requests may
 come between, and says exactly when an append-only config can be replaced.
 */
module ConfigProtocol {
  import opened Prelude

  datatype Phase = Checking | Saving | Answered(status: int)

  /** guarded: the server is append-only, or the request has the append-only mark. */
  datatype Request = Request(data: Bytes, guarded: bool, phase: Phase)

  datatype State = State(config: Option<Bytes>, requests: map<nat, Request>)

  datatype Step =
    | Arrive(id: nat, data: Bytes, guarded: bool)
    | Check(id: nat)
    | Save(id: nat)
    | Fail(id: nat)

  predicate Enabled(s: State, step: Step) {
    match step
    case Arrive(id, _, _) => id !in s.requests
    case Check(id) => id in s.requests && s.requests[id].phase == Checking
    case Save(id) => id in s.requests && s.requests[id].phase == Saving
    case Fail(id) => id in s.requests && s.requests[id].phase == Saving
  }

  function To(s: State, id: nat, phase: Phase): State
    requires id in s.requests
  {
    s.(requests := s.requests[id := s.requests[id].(phase := phase)])
  }

  function After(s: State, step: Step): State
    requires Enabled(s, step)
  {
    match step
    case Arrive(id, data, guarded) => s.(requests := s.requests[id := Request(data, guarded, Checking)])
    case Check(id) => To(s, id, if s.requests[id].guarded && s.config.Some? then Answered(403) else Saving)
    case Save(id) => To(s, id, Answered(200)).(config := Some(s.requests[id].data))
    case Fail(id) => To(s, id, Answered(500))
  }

  ghost predicate Legal(s: State, steps: seq<Step>)
    decreases steps
  {
    steps == [] || (Enabled(s, steps[0]) && Legal(After(s, steps[0]), steps[1..]))
  }

  ghost function End(s: State, steps: seq<Step>): State
    requires Legal(s, steps)
    decreases steps
  {
    if steps == [] then s else End(After(s, steps[0]), steps[1..])
  }

  /** The config stays as it is, if it is set. */
  predicate Keeps(s: State, s': State) {
    s.config.Some? ==> s'.config == s.config
  }

  ghost predicate AllGuarded(s: State) {
    forall id :: id in s.requests ==> s.requests[id].guarded
  }

  predicate Pending(s: State, id: nat) {
    id in s.requests && s.requests[id].phase == Saving
  }

  ghost predicate OnlyGuardedArrive(steps: seq<Step>) {
    forall i :: 0 <= i < |steps| && steps[i].Arrive? ==> steps[i].guarded
  }

  // ----- Exactly when

  /** The pending requests carry one and the same config, which is the one that is set, if any is. */
  ghost predicate Agreed(s: State) {
    && (forall i, j :: Pending(s, i) && Pending(s, j) ==> s.requests[i].data == s.requests[j].data)
    && (forall i :: Pending(s, i) && s.config.Some? ==> s.requests[i].data == s.config.value)
  }

  /** Among guarded requests, once a config is set nobody new gets past the check. */
  lemma AgreedStays(s: State, step: Step)
    requires AllGuarded(s) && Agreed(s) && s.config.Some? && Enabled(s, step) && (step.Arrive? ==> step.guarded)
    ensures var s' := After(s, step); AllGuarded(s') && Agreed(s') && Keeps(s, s')
  {
    var s' := After(s, step);
    forall i | Pending(s', i)
      ensures Pending(s, i) && s'.requests[i].data == s.requests[i].data
    {
    }
  }

  lemma {:induction false} AgreedRun(s: State, steps: seq<Step>)
    requires AllGuarded(s) && Agreed(s) && s.config.Some? && Legal(s, steps) && OnlyGuardedArrive(steps)
    ensures Keeps(s, End(s, steps))
    decreases steps
  {
    if steps != [] {
      assert steps[0].Arrive? ==> steps[0].guarded;
      AgreedStays(s, steps[0]);
      assert OnlyGuardedArrive(steps[1..]);
      hide Agreed, AllGuarded, Enabled, After;
      AgreedRun(After(s, steps[0]), steps[1..]);
    }
  }

  lemma SaveReplaces(s: State, id: nat)
    requires Pending(s, id)
    ensures Legal(s, [Save(id)]) && End(s, [Save(id)]).config == Some(s.requests[id].data)
  {
    assert [Save(id)][1..] == [];
    assert Legal(After(s, Save(id)), []) && End(After(s, Save(id)), []) == After(s, Save(id));
  }

  /** A config that is set stays for good, whatever guarded requests do from here on, if and only if
      every request that is past its check carries that config. */
  lemma WriteOnceIff(s: State)
    requires AllGuarded(s) && s.config.Some?
    ensures (forall steps :: Legal(s, steps) && OnlyGuardedArrive(steps) ==> Keeps(s, End(s, steps))) <==>
      forall id :: Pending(s, id) ==> s.requests[id].data == s.config.value
  {
    if forall id :: Pending(s, id) ==> s.requests[id].data == s.config.value {
      forall steps | Legal(s, steps) && OnlyGuardedArrive(steps)
        ensures Keeps(s, End(s, steps))
      {
        AgreedRun(s, steps);
      }
    } else {
      var id :| Pending(s, id) && s.requests[id].data != s.config.value;
      SaveReplaces(s, id);
      assert OnlyGuardedArrive([Save(id)]);
    }
  }

  // ----- Requests that do not overlap

  /** No two requests are past their check at once, and none is while a config is set. */
  ghost predicate Alone(s: State) {
    && (forall i, j :: Pending(s, i) && Pending(s, j) ==> i == j)
    && (s.config.Some? ==> forall i :: !Pending(s, i))
  }

  /** A check is made only while no other request is past its own. */
  ghost predicate Serial(s: State, steps: seq<Step>)
    requires Legal(s, steps)
    decreases steps
  {
    steps != [] ==>
      && (steps[0].Check? ==> forall i :: !Pending(s, i))
      && Serial(After(s, steps[0]), steps[1..])
  }

  lemma PendingBefore(s: State, step: Step, id: nat)
    requires Enabled(s, step) && Pending(After(s, step), id)
    ensures (Pending(s, id) && step != Save(id)) || step == Check(id)
  {
  }

  lemma SerialStep(s: State, step: Step)
    requires AllGuarded(s) && Alone(s) && Enabled(s, step) && (step.Arrive? ==> step.guarded)
    requires step.Check? ==> forall i :: !Pending(s, i)
    ensures var s' := After(s, step); AllGuarded(s') && Alone(s') && Keeps(s, s')
  {
    var s' := After(s, step);
    if step.Save? || step.Fail? {
      assert Pending(s, step.id);
    }
    if step.Check? {
      assert s.requests[step.id].guarded;
    }
    forall i | Pending(s', i)
      ensures if step.Check? then i == step.id && s.config.None? else Pending(s, i) && (step.Save? ==> i != step.id)
    {
      PendingBefore(s, step, i);
    }
  }

  /** When each request saves before the next one checks, as one after the other does, a config is
      written once: over every run of guarded requests it never changes once it is set. */
  lemma {:induction false} SerialIsWriteOnce(s: State, steps: seq<Step>)
    requires AllGuarded(s) && Alone(s) && Legal(s, steps) && OnlyGuardedArrive(steps) && Serial(s, steps)
    ensures Keeps(s, End(s, steps))
    ensures AllGuarded(End(s, steps)) && Alone(End(s, steps))
    decreases steps
  {
    if steps != [] {
      assert steps[0].Arrive? ==> steps[0].guarded;
      SerialStep(s, steps[0]);
      assert OnlyGuardedArrive(steps[1..]);
      hide Alone, AllGuarded, Enabled, After, Pending;
      SerialIsWriteOnce(After(s, steps[0]), steps[1..]);
    }
  }

  // ----- It happens

  /** Two append-only requests that arrive at an empty repository at once. */
  function Race(a: Bytes, b: Bytes): seq<Step> {
    [Arrive(0, a, true), Arrive(1, b, true), Check(0), Check(1), Save(0), Save(1)]
  }

  lemma OneStep(s: State, steps: seq<Step>, i: nat)
    requires i < |steps| && Enabled(s, steps[i]) && Legal(After(s, steps[i]), steps[i + 1..])
    ensures Legal(s, steps[i..]) && End(s, steps[i..]) == End(After(s, steps[i]), steps[i + 1..])
  {
    hide Enabled, After;
    assert steps[i..][0] == steps[i] && steps[i..][1..] == steps[i + 1..];
  }

  /** Both pass the check, and the second config replaces the first. */
  lemma RaceReplaces(a: Bytes, b: Bytes)
    ensures var none, steps := State(None, map[]), Race(a, b);
      && Legal(none, steps) && OnlyGuardedArrive(steps)
      && Legal(none, steps[..5]) && End(none, steps[..5]).config == Some(a)
      && End(none, steps).config == Some(b)
  {
    var s0, steps := State(None, map[]), Race(a, b);
    RaceFrom(s0, steps, a, b);
    RaceFrom(s0, steps[..5], a, b);
    assert steps[0..] == steps && steps[..5][0..] == steps[..5];
  }

  lemma RaceFrom(s0: State, steps: seq<Step>, a: Bytes, b: Bytes)
    requires s0 == State(None, map[]) && (steps == Race(a, b) || steps == Race(a, b)[..5])
    ensures Legal(s0, steps[0..]) && End(s0, steps[0..]).config == Some(if |steps| == 6 then b else a)
  {
    var s1 := After(s0, Arrive(0, a, true));
    var s2 := After(s1, Arrive(1, b, true));
    var s3 := After(s2, Check(0));
    var s4 := After(s3, Check(1));
    var s5 := After(s4, Save(0));
    var s6 := After(s5, Save(1));
    assert Legal(s5, []) && End(s5, []) == s5 && s5.config == Some(a);
    assert Legal(s6, []) && End(s6, []) == s6 && s6.config == Some(b);
    if |steps| == 6 {
      assert steps[6..] == [];
      OneStep(s5, steps, 5);
    } else {
      assert steps[5..] == [];
    }
    hide Enabled, After, Legal, End;
    OneStep(s4, steps, 4);
    OneStep(s3, steps, 3);
    OneStep(s2, steps, 2);
    OneStep(s1, steps, 1);
    OneStep(s0, steps, 0);
  }
}

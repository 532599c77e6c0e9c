/**
 What one pass of the liveness check computes from the local site's record list,
 the heartbeat-timestamp table and the current time: the re-evaluated records,
 whether any member moved into or out of the healthy list, and the list that
 replaces the healthy list.
 */
module Liveness {
  import opened Servers

  /** `Constants.SERVER_EXPIRED_MILLS`: the silence after which a member counts as dead. */
  const SERVER_EXPIRED_MILLS: int := 15000

  /** A member whose last heartbeat arrived at `lastBeat` is alive at `now`. */
  predicate Alive(now: int, lastBeat: int)
  {
    now - lastBeat < SERVER_EXPIRED_MILLS
  }

  /** One record after the check: `alive` recomputed when a beat is recorded for its key. */
  function Evaluated(s: Server, beats: map<string, int>, now: int): Server
  {
    if Key(s) in beats then s.(alive := Alive(now, beats[Key(s)])) else s
  }

  /** The site's record list after the check's `setAlive` calls. */
  function Evaluate(list: seq<Server>, beats: map<string, int>, now: int): (r: seq<Server>)
    ensures |r| == |list|
  {
    if list == [] then []
    else Evaluate(list[..|list| - 1], beats, now) + [Evaluated(list[|list| - 1], beats, now)]
  }

  /** An evaluated record that sets the `changed` flag: it has a beat and became alive
      while not healthy, or is dead while healthy. */
  predicate Transition(s: Server, beats: map<string, int>, healthy: seq<Server>)
  {
    Key(s) in beats && ((s.alive && !KeyIn(Key(s), healthy)) || (!s.alive && KeyIn(Key(s), healthy)))
  }

  /** The `changed` flag after the loop. */
  function AnyTransition(evaluated: seq<Server>, beats: map<string, int>, healthy: seq<Server>): bool
  {
    if evaluated == [] then false
    else (AnyTransition(evaluated[..|evaluated| - 1], beats, healthy)
          || Transition(evaluated[|evaluated| - 1], beats, healthy))
  }

  /** `newHealthyList` as the loop fills it: only records that have a beat, are alive
      and were NOT already in the healthy list. */
  function NewHealthyList(evaluated: seq<Server>, beats: map<string, int>, healthy: seq<Server>): seq<Server>
  {
    if evaluated == [] then []
    else
      var s := evaluated[|evaluated| - 1];
      NewHealthyList(evaluated[..|evaluated| - 1], beats, healthy)
        + (if Key(s) in beats && s.alive && !KeyIn(Key(s), healthy) then [s] else [])
  }

  /** The healthy list after a pass over `list`: replaced by `newHealthyList` only when
      some member changed state. */
  function HealthyAfterCheck(list: seq<Server>, beats: map<string, int>, healthy: seq<Server>, now: int): seq<Server>
  {
    var evaluated := Evaluate(list, beats, now);
    if AnyTransition(evaluated, beats, healthy) then NewHealthyList(evaluated, beats, healthy) else healthy
  }

  /** Every evaluated record that has a beat and is alive, in list order: the list the
      check evidently means to install. */
  function AliveServers(evaluated: seq<Server>, beats: map<string, int>): seq<Server>
  {
    if evaluated == [] then []
    else
      var s := evaluated[|evaluated| - 1];
      AliveServers(evaluated[..|evaluated| - 1], beats) + (if Key(s) in beats && s.alive then [s] else [])
  }

  /** The corrected pass: on a change, the healthy list becomes every member alive now. */
  function HealthyAfterCheckCorrected(list: seq<Server>, beats: map<string, int>, healthy: seq<Server>, now: int): seq<Server>
  {
    var evaluated := Evaluate(list, beats, now);
    if AnyTransition(evaluated, beats, healthy) then AliveServers(evaluated, beats) else healthy
  }

  // ---------------------------------------------------------------------
  // Lemmas
  // ---------------------------------------------------------------------

  /** One more record: the evaluated prefix, the `changed` flag and both rebuilt lists grow
      by that record's share, as one step of the check's loop. */
  lemma CheckStep(list: seq<Server>, i: nat, beats: map<string, int>, healthy: seq<Server>, now: int)
    requires i < |list|
    ensures var e := Evaluate(list[..i], beats, now); var y := Evaluated(list[i], beats, now);
      && Evaluate(list[..i + 1], beats, now) == e + [y]
      && AnyTransition(e + [y], beats, healthy) == (AnyTransition(e, beats, healthy) || Transition(y, beats, healthy))
      && NewHealthyList(e + [y], beats, healthy)
         == NewHealthyList(e, beats, healthy) + (if Key(y) in beats && y.alive && !KeyIn(Key(y), healthy) then [y] else [])
      && AliveServers(e + [y], beats) == AliveServers(e, beats) + (if Key(y) in beats && y.alive then [y] else [])
  {
    assert list[..i + 1][..i] == list[..i];
    var e := Evaluate(list[..i], beats, now);
    assert (e + [Evaluated(list[i], beats, now)])[..|e|] == e;
  }

  lemma {:induction false} EvaluateAt(list: seq<Server>, beats: map<string, int>, now: int)
    ensures |Evaluate(list, beats, now)| == |list|
    ensures forall i :: 0 <= i < |list| ==> Evaluate(list, beats, now)[i] == Evaluated(list[i], beats, now)
  {
    if list != [] {
      var init := list[..|list| - 1];
      EvaluateAt(init, beats, now);
      var r := Evaluate(list, beats, now);
      forall i | 0 <= i < |list| - 1 ensures r[i] == Evaluated(list[i], beats, now) {
        assert r[i] == Evaluate(init, beats, now)[i];
        assert list[i] == init[i];
      }
    }
  }

  /** A record with no recorded beat keeps its `alive` value (it is the same record); every
      other record ends with `alive` exactly when its last beat is within the window. Nothing
      else about a record changes, and the list keeps its length and order. */
  lemma EvaluateSpec(list: seq<Server>, beats: map<string, int>, now: int)
    ensures |Evaluate(list, beats, now)| == |list|
    ensures forall i :: 0 <= i < |list| && Key(list[i]) !in beats ==> Evaluate(list, beats, now)[i] == list[i]
    ensures forall i :: 0 <= i < |list| && Key(list[i]) in beats ==>
      Evaluate(list, beats, now)[i] == list[i].(alive := Alive(now, beats[Key(list[i])]))
    ensures forall i :: 0 <= i < |list| ==> Key(Evaluate(list, beats, now)[i]) == Key(list[i])
  {
    EvaluateAt(list, beats, now);
  }

  /** The `changed` flag is set exactly when some evaluated record made a transition. */
  /** A set flag has a record that set it. */
  lemma {:induction false} AnyTransitionWitness(evaluated: seq<Server>, beats: map<string, int>, healthy: seq<Server>)
    returns (i: nat)
    requires AnyTransition(evaluated, beats, healthy)
    ensures i < |evaluated| && Transition(evaluated[i], beats, healthy)
  {
    var last := |evaluated| - 1;
    var init := evaluated[..last];
    if Transition(evaluated[last], beats, healthy) {
      i := last;
    } else {
      i := AnyTransitionWitness(init, beats, healthy);
      assert evaluated[i] == init[i];
    }
  }

  /** Any record that makes a transition sets the flag. */
  lemma {:induction false} AnyTransitionAt(evaluated: seq<Server>, beats: map<string, int>, healthy: seq<Server>, i: nat)
    requires i < |evaluated| && Transition(evaluated[i], beats, healthy)
    ensures AnyTransition(evaluated, beats, healthy)
  {
    var last := |evaluated| - 1;
    if i < last {
      var init := evaluated[..last];
      assert init[i] == evaluated[i];
      AnyTransitionAt(init, beats, healthy, i);
    }
  }

  /** The `changed` flag is set exactly when some evaluated record made a transition. */
  lemma AnyTransitionSpec(evaluated: seq<Server>, beats: map<string, int>, healthy: seq<Server>)
    ensures AnyTransition(evaluated, beats, healthy) <==>
      exists i :: 0 <= i < |evaluated| && Transition(evaluated[i], beats, healthy)
  {
    if AnyTransition(evaluated, beats, healthy) {
      var i := AnyTransitionWitness(evaluated, beats, healthy);
    }
    if exists i :: 0 <= i < |evaluated| && Transition(evaluated[i], beats, healthy) {
      var i :| 0 <= i < |evaluated| && Transition(evaluated[i], beats, healthy);
      AnyTransitionAt(evaluated, beats, healthy, i);
    }
  }

  /** The rebuilt list holds exactly the evaluated records that have a beat, are alive and
      were not in the old healthy list. */
  lemma {:induction false} NewHealthyListSpec(evaluated: seq<Server>, beats: map<string, int>, healthy: seq<Server>)
    ensures forall s :: s in NewHealthyList(evaluated, beats, healthy) <==>
      s in evaluated && Key(s) in beats && s.alive && !KeyIn(Key(s), healthy)
  {
    if evaluated != [] {
      var init := evaluated[..|evaluated| - 1];
      NewHealthyListSpec(init, beats, healthy);
      assert evaluated == init + [evaluated[|evaluated| - 1]];
    }
  }

  /** Every record of the corrected list has a beat and is alive, and every evaluated
      record that has a beat and is alive is in it. */
  lemma {:induction false} AliveServersSpec(evaluated: seq<Server>, beats: map<string, int>)
    ensures forall s :: s in AliveServers(evaluated, beats) <==> s in evaluated && Key(s) in beats && s.alive
  {
    if evaluated != [] {
      var init := evaluated[..|evaluated| - 1];
      AliveServersSpec(init, beats);
      assert evaluated == init + [evaluated[|evaluated| - 1]];
    }
  }

  /** With no transition the healthy list is kept; with one, every member of the new list
      was evaluated alive and was not in the old healthy list. */
  lemma HealthyAfterCheckSpec(list: seq<Server>, beats: map<string, int>, healthy: seq<Server>, now: int)
    ensures !AnyTransition(Evaluate(list, beats, now), beats, healthy) ==> HealthyAfterCheck(list, beats, healthy, now) == healthy
    ensures AnyTransition(Evaluate(list, beats, now), beats, healthy) ==>
      forall s :: s in HealthyAfterCheck(list, beats, healthy, now) ==>
        s in Evaluate(list, beats, now) && Key(s) in beats && s.alive
        && s.alive == Alive(now, beats[Key(s)]) && !KeyIn(Key(s), healthy)
  {
    var e := Evaluate(list, beats, now);
    NewHealthyListSpec(e, beats, healthy);
    EvaluateSpec(list, beats, now);
    forall s | s in e && Key(s) in beats ensures s.alive == Alive(now, beats[Key(s)]) {
      var i :| 0 <= i < |e| && e[i] == s;
    }
  }

  /** As written, a pass that replaces the healthy list drops a member that is still alive
      and was healthy: the replacement holds only members that just became alive. */
  lemma StillAliveMemberDropped(list: seq<Server>, beats: map<string, int>, healthy: seq<Server>, now: int, i: nat, j: nat)
    requires i < |list| && j < |list|
    requires Key(list[i]) in beats && Alive(now, beats[Key(list[i])]) && KeyIn(Key(list[i]), healthy)
    requires Transition(Evaluate(list, beats, now)[j], beats, healthy)
    ensures Evaluate(list, beats, now)[i].alive
    ensures !KeyIn(Key(list[i]), HealthyAfterCheck(list, beats, healthy, now))
  {
    var e := Evaluate(list, beats, now);
    EvaluateSpec(list, beats, now);
    AnyTransitionSpec(e, beats, healthy);
    NewHealthyListSpec(e, beats, healthy);
    var r := HealthyAfterCheck(list, beats, healthy, now);
    assert r == NewHealthyList(e, beats, healthy);
    forall k | 0 <= k < |r| ensures Key(r[k]) != Key(list[i]) {
      assert r[k] in r;
    }
  }

  /** A record of the corrected list has a beat and is evaluated alive from it. */
  lemma AliveServersMemberAlive(list: seq<Server>, beats: map<string, int>, now: int, s: Server)
    requires s in AliveServers(Evaluate(list, beats, now), beats)
    ensures Key(s) in beats && Alive(now, beats[Key(s)])
  {
    var e := Evaluate(list, beats, now);
    AliveServersSpec(e, beats);
    EvaluateAt(list, beats, now);
    var n :| 0 <= n < |e| && e[n] == s;
    assert e[n] == Evaluated(list[n], beats, now);
  }

  /** One member of the list, after a corrected pass: healthy exactly when alive. */
  lemma CorrectedHealthyAt(list: seq<Server>, beats: map<string, int>, healthy: seq<Server>, now: int, i: nat)
    requires i < |list| && Key(list[i]) in beats
    ensures KeyIn(Key(list[i]), HealthyAfterCheckCorrected(list, beats, healthy, now)) <==> Alive(now, beats[Key(list[i])])
  {
    var e := Evaluate(list, beats, now);
    var k := Key(list[i]);
    EvaluateAt(list, beats, now);
    assert e[i] == list[i].(alive := Alive(now, beats[k]));
    assert Key(e[i]) == k;
    if AnyTransition(e, beats, healthy) {
      var r := AliveServers(e, beats);
      assert HealthyAfterCheckCorrected(list, beats, healthy, now) == r;
      if Alive(now, beats[k]) {
        AliveServersSpec(e, beats);
        assert e[i] in e;
        assert e[i] in r;
        var m :| 0 <= m < |r| && r[m] == e[i];
        assert Key(r[m]) == k;
      }
      if KeyIn(k, r) {
        var m :| 0 <= m < |r| && Key(r[m]) == k;
        assert r[m] in r;
        AliveServersMemberAlive(list, beats, now, r[m]);
      }
    } else {
      AnyTransitionSpec(e, beats, healthy);
      assert !Transition(e[i], beats, healthy);
    }
  }

  /** After a corrected pass, a member of the list with a recorded beat is in the healthy
      list exactly when it is alive: whether or not the list was replaced. */
  lemma CorrectedHealthyMatchesLiveness(list: seq<Server>, beats: map<string, int>, healthy: seq<Server>, now: int)
    ensures forall i :: 0 <= i < |list| && Key(list[i]) in beats ==>
      (KeyIn(Key(list[i]), HealthyAfterCheckCorrected(list, beats, healthy, now)) <==> Alive(now, beats[Key(list[i])]))
  {
    forall i | 0 <= i < |list| && Key(list[i]) in beats
      ensures KeyIn(Key(list[i]), HealthyAfterCheckCorrected(list, beats, healthy, now)) <==> Alive(now, beats[Key(list[i])])
    {
      CorrectedHealthyAt(list, beats, healthy, now, i);
    }
  }

  // ---------------------------------------------------------------------
  // The check's loop
  // ---------------------------------------------------------------------

  /** The loop of the check as written: re-evaluates each record that has a beat, collects
      the members that just became alive and notes whether any member changed state. */
  method CheckPass(allServers: seq<Server>, beats: map<string, int>, healthy: seq<Server>, now: int)
    returns (evaluated: seq<Server>, newHealthyList: seq<Server>, changed: bool)
    ensures evaluated == Evaluate(allServers, beats, now)
    ensures newHealthyList == NewHealthyList(evaluated, beats, healthy)
    ensures changed == AnyTransition(evaluated, beats, healthy)
  {
    newHealthyList := [];
    evaluated := [];
    changed := false;
    for i := 0 to |allServers|
      invariant evaluated == Evaluate(allServers[..i], beats, now)
      invariant newHealthyList == NewHealthyList(evaluated, beats, healthy)
      invariant changed == AnyTransition(evaluated, beats, healthy)
    {
      CheckStep(allServers, i, beats, healthy, now);
      var s := allServers[i];
      if Key(s) !in beats {
        evaluated := evaluated + [s];
        continue;
      }
      s := s.(alive := Alive(now, beats[Key(s)]));
      evaluated := evaluated + [s];
      if s.alive && !KeyIn(Key(s), healthy) {
        newHealthyList := newHealthyList + [s];
        changed := true;
      } else if !s.alive && KeyIn(Key(s), healthy) {
        changed := true;
      }
    }
    assert allServers[..|allServers|] == allServers;
  }

  /** The corrected loop: the same evaluation and flag, collecting every member alive now. */
  method CheckPassCorrected(allServers: seq<Server>, beats: map<string, int>, healthy: seq<Server>, now: int)
    returns (evaluated: seq<Server>, aliveList: seq<Server>, changed: bool)
    ensures evaluated == Evaluate(allServers, beats, now)
    ensures aliveList == AliveServers(evaluated, beats)
    ensures changed == AnyTransition(evaluated, beats, healthy)
  {
    aliveList := [];
    evaluated := [];
    changed := false;
    for i := 0 to |allServers|
      invariant evaluated == Evaluate(allServers[..i], beats, now)
      invariant aliveList == AliveServers(evaluated, beats)
      invariant changed == AnyTransition(evaluated, beats, healthy)
    {
      CheckStep(allServers, i, beats, healthy, now);
      var s := allServers[i];
      if Key(s) !in beats {
        evaluated := evaluated + [s];
        continue;
      }
      s := s.(alive := Alive(now, beats[Key(s)]));
      evaluated := evaluated + [s];
      if s.alive {
        aliveList := aliveList + [s];
      }
      if s.alive != KeyIn(Key(s), healthy) {
        changed := true;
      }
    }
    assert allServers[..|allServers|] == allServers;
  }
}

/**
 Which entries the client's states have: what a queued state carries of the one that arrived, what popping, creating and
 destroying leave, and how predictions are checked and corrected.
 */
module Entries {
  import opened GameStates

  // ---------------------------------------------------------------- queued states

  /** All of table m, and for entity c possibly the default. */
  ghost predicate Extends<T>(r: map<nat, T>, m: map<nat, T>, c: nat, default: T) {
    && (forall k :: k in m ==> k in r && r[k] == m[k])
    && (forall k :: k in r && k !in m ==> k == c && r[k] == default)
  }

  /** The queued state is the accepted one; reading the client's own entries may have made them. */
  ghost predicate Carries(p: GameState, st: GameState) {
    && p.id == st.id && p.commandId == st.commandId && p.timestamp == st.timestamp
    && p.orientations == st.orientations
    && exists c :: Extends(p.positions, st.positions, c, Vec(0.0, 0.0, 0.0))
                   && Extends(p.velocities, st.velocities, c, Velocity(Vec(0.0, 0.0, 0.0), Vec(0.0, 0.0, 0.0)))
  }

  /** The pending states are the latest accepted ones. */
  ghost predicate AllCarried(s: Queue) {
    && |s.pending| <= |s.accepted|
    && forall i :: 0 <= i < |s.pending| ==> Carries(s.pending[i], s.accepted[|s.accepted| - |s.pending| + i])
  }

  lemma {:induction false} TouchedCarries(st: GameState, client: nat, acked: bool)
    ensures Carries(Touched(st, client, acked), st)
  {
    var p := Touched(st, client, acked);
    assert Extends(p.positions, st.positions, client, ORIGIN);
    assert Extends(p.velocities, st.velocities, client, AT_REST);
  }

  lemma {:induction false} ItselfCarries(st: GameState)
    ensures Carries(st, st)
  {
    assert Extends(st.positions, st.positions, 0, ORIGIN);
    assert Extends(st.velocities, st.velocities, 0, AT_REST);
  }

  lemma {:induction false} ReceivedCarried(s: Queue, st: GameState)
    requires |s.ring| == RING && AllCarried(s)
    ensures AllCarried(Received(s, st))
    ensures st.id > s.last ==> Received(s, st).accepted == s.accepted + [st]
    ensures st.id <= s.last ==> Received(s, st).accepted == s.accepted && Received(s, st).pending == s.pending
  {
    hide Carries, Touched, Error, Newer;
    if st.id > s.last {
      ItselfCarries(st);
      TouchedCarries(st, s.clientId, st.commandId in s.predictions);
      var r := Received(s, st);
      assert r.pending == s.pending + [Checked(s, st).1];
      forall i | 0 <= i < |r.pending| ensures Carries(r.pending[i], r.accepted[|r.accepted| - |r.pending| + i]) {
      }
    }
  }

  lemma {:induction false} StepCarried(s: Queue, e: Event)
    requires Inv(s) && Allowed(e) && AllCarried(s)
    ensures AllCarried(Step(s, e))
  {
    hide Carries, Inv, Received, Snapped, Blended, Factor, WithAll, Without;
    match e {
      case Receive(st) =>
        assert |s.ring| == RING by { RingOfInv(s); }
        ReceivedCarried(s, st);
      case Tick(delta, slerp) =>
        assert Ordered(s) by { OrderOfInv(s); }
        TickedCarried(s, delta, slerp);
      case _ =>
    }
  }

  lemma {:induction false} RingOfInv(s: Queue)
    requires Inv(s)
    ensures |s.ring| == RING
  {
    RingSize(s);
  }

  lemma {:induction false} OrderOfInv(s: Queue)
    requires Inv(s)
    ensures Ordered(s)
  {
  }

  lemma {:induction false} TickedCarried(s: Queue, delta: real, slerp: Slerp)
    requires Ordered(s) && AllCarried(s)
    ensures AllCarried(Ticked(s, delta, slerp))
  {
    hide Carries, Snapped, Blended, Factor, Pops, Ids, Ordered;
    var r := Ticked(s, delta, slerp);
    assert r.accepted == s.accepted;
    var n := |s.pending| - |r.pending|;
    forall i | 0 <= i < |r.pending| ensures Carries(r.pending[i], r.accepted[|r.accepted| - |r.pending| + i]) {
      assert r.pending[i] == s.pending[n + i];
    }
  }

  /** In every state reached from the start each pending state has the entries of the accepted one. */
  lemma {:induction false} RunCarried(s: Queue, es: seq<Event>)
    requires Inv(s) && AllCarried(s) && forall i :: 0 <= i < |es| ==> Allowed(es[i])
    ensures AllCarried(Run(s, es))
    decreases |es|
  {
    hide Inv, Step, AllCarried, Allowed;
    if es != [] {
      StepInv(s, es[0]);
      StepCarried(s, es[0]);
      RunCarried(Step(s, es[0]), es[1..]);
    }
  }

  lemma {:induction false} AlwaysCarried(stats: Stats, es: seq<Event>)
    requires forall i :: 0 <= i < |es| ==> Allowed(es[i])
    ensures Inv(Init(stats)) && AllCarried(Run(Init(stats), es))
  {
    InitInv(stats);
    RunCarried(Init(stats), es);
  }

  // ---------------------------------------------------------------- predictions

  /**
   An accepted state that acknowledges a command with a prediction records the error by which the prediction has to be
   moved to be right: its position to where the server had the entity one state before, its velocity to the state's.
   Without such a prediction there is no error. Predictions up to the acknowledged command are forgotten.
   */
  lemma {:induction false} ErrorCorrects(s: Queue, st: GameState, k: nat)
    requires |s.ring| == RING && s.clientId != 0 && st.id > s.last
    ensures var r, c := Received(s, st), s.clientId;
            && (st.commandId in s.predictions ==>
                  var p := s.predictions[st.commandId];
                  && Plus(At(p.positions, c, ORIGIN), r.stats.clientPosition) == s.stats.serverPositionNext
                  && Plus(At(p.velocities, c, AT_REST).linear, r.stats.clientVelocity)
                     == At(st.velocities, c, AT_REST).linear)
            && (st.commandId !in s.predictions ==>
                  r.stats.clientPosition == r.stats.clientVelocity == Vec(0.0, 0.0, 0.0))
            && r.stats.ackedId == st.commandId
            && r.stats.serverPosition == s.stats.serverPositionNext
            && r.stats.serverPositionNext == At(st.positions, c, ORIGIN)
            && (k in r.predictions <==> k in s.predictions && k > st.commandId)
            && (k in r.predictions ==> r.predictions[k] == s.predictions[k])
  {
  }

  /**
   A new prediction is the simulated state moved by an eighth of the recorded error: seven eighths of it are left to the
   place where the error would have put it. A prediction already made is kept.
   */
  lemma {:induction false} NudgeReduces(s: Queue, st: GameState)
    requires s.clientId != 0 && s.commandId !in s.predictions && s.clientId in st.positions
    ensures var r, c, error := Predicted(s, st), s.clientId, s.stats.clientPosition;
            && s.commandId in r.predictions && c in r.predictions[s.commandId].positions
            && (var goal, v := Plus(st.positions[c], error), r.predictions[s.commandId].positions[c];
                && 8.0 * (goal.x - v.x) == 7.0 * error.x && 8.0 * (goal.y - v.y) == 7.0 * error.y
                && 8.0 * (goal.z - v.z) == 7.0 * error.z)
            && r.predictions[s.commandId].velocities
               == map[c := if c in st.velocities then st.velocities[c]
                           else Velocity(Vec(0.0, 0.0, 0.0), Vec(0.0, 0.0, 0.0))]
            && r.predictions[s.commandId].orientations
               == map[c := if c in st.orientations then st.orientations[c]
                           else Orientation(Quat(1.0, 0.0, 0.0, 0.0), Vec(0.0, 0.0, 0.0))]
            && r.stats.commandId == s.commandId
            && forall k :: k in s.predictions ==> k in r.predictions && r.predictions[k] == s.predictions[k]
  {
  }

  lemma {:induction false} PredictedKept(s: Queue, st: GameState)
    ensures s.clientId == 0 ==> Predicted(s, st) == s
    ensures s.clientId != 0 && s.commandId in s.predictions ==> Predicted(s, st).predictions == s.predictions
  {
  }

  // ---------------------------------------------------------------- popped states and entity events

  /** Whether the client's own entity is put at its prediction. */
  predicate HasPrediction(s: Queue) {
    s.clientId != 0 && s.commandId in s.predictions
  }

  /**
   After a tick that pops, the base has the entries of the first popped state and keeps what that lacks; the client's
   own position and velocity are those predicted for the current command, if they are.
   */
  lemma {:induction false} PoppedEntries(s: Queue, delta: real, slerp: Slerp, k: nat)
    requires Inv(s) && delta >= 0.0 && s.pending != [] && s.accumulator + delta >= 0.125
    ensures var r, to, was, c := Ticked(s, delta, slerp), s.pending[0], s.base, s.clientId;
            var own := HasPrediction(s) && k == c;
            && (own ==> k in r.base.positions
                        && r.base.positions[k] == At(s.predictions[s.commandId].positions, c, ORIGIN))
            && (own ==> k in r.base.velocities
                        && r.base.velocities[k] == At(s.predictions[s.commandId].velocities, c, AT_REST))
            && (!own && k in to.positions ==> k in r.base.positions && r.base.positions[k] == to.positions[k])
            && (!own && k !in to.positions ==> (k in r.base.positions <==> k in was.positions)
                                               && (k in was.positions ==> r.base.positions[k] == was.positions[k]))
            && (!own && k in to.velocities ==> k in r.base.velocities && r.base.velocities[k] == to.velocities[k])
            && (!own && k !in to.velocities ==> (k in r.base.velocities <==> k in was.velocities)
                                                && (k in was.velocities ==> r.base.velocities[k] == was.velocities[k]))
            && (k in to.orientations ==> k in r.base.orientations && r.base.orientations[k] == to.orientations[k])
            && (k !in to.orientations ==>
                  (k in r.base.orientations <==> k in was.orientations)
                  && (k in was.orientations ==> r.base.orientations[k] == was.orientations[k]))
  {
    hide Monotone, Kept, RingHolds, TimeKept, Pops, Ids, Blended, Factor;
  }

  /** Every tick counts the pending states, and notes the time stamp of the first. */
  lemma {:induction false} TickStats(s: Queue, delta: real, slerp: Slerp)
    requires Inv(s)
    ensures var r := Ticked(s, delta, slerp);
            && r.stats.stateCount == |s.pending|
            && (s.pending != [] ==> r.stats.lastStateTime == s.pending[0].timestamp)
  {
    hide Monotone, Kept, RingHolds, TimeKept, Snapped, Blended, Pops, Ids, Factor;
  }

  /** The value of the last position among the components, if there is one. */
  function LastPosition(cs: seq<Component>): (v: seq<Vec>) {
    if cs == [] then [] else if cs[|cs| - 1].PositionOf? then [cs[|cs| - 1].v] else LastPosition(cs[..|cs| - 1])
  }

  function LastVelocity(cs: seq<Component>): (w: seq<Velocity>) {
    if cs == [] then [] else if cs[|cs| - 1].VelocityOf? then [cs[|cs| - 1].w] else LastVelocity(cs[..|cs| - 1])
  }

  function LastOrientation(cs: seq<Component>): (o: seq<Orientation>) {
    if cs == [] then [] else if cs[|cs| - 1].OrientationOf? then [cs[|cs| - 1].o] else LastOrientation(cs[..|cs| - 1])
  }

  lemma {:induction false} WithAllEntries(g: GameState, e: nat, cs: seq<Component>)
    ensures var r, v, w, o := WithAll(g, e, cs), LastPosition(cs), LastVelocity(cs), LastOrientation(cs);
            && |v| <= 1 && |w| <= 1 && |o| <= 1
            && r.positions == (if v == [] then g.positions else g.positions[e := v[0]])
            && r.velocities == (if w == [] then g.velocities else g.velocities[e := w[0]])
            && r.orientations == (if o == [] then g.orientations else g.orientations[e := o[0]])
  {
    if cs != [] {
      WithAllEntries(g, e, cs[..|cs| - 1]);
    }
  }

  /** A created entity has its components in the base and in what is shown; nothing else changes. */
  lemma {:induction false} CreatedEntries(s: Queue, e: nat, cs: seq<Component>)
    ensures var r, v, w, o := Created(s, e, cs), LastPosition(cs), LastVelocity(cs), LastOrientation(cs);
            && (v != [] ==> r.base.positions == s.base.positions[e := v[0]]
                            && r.interpolated.positions == s.interpolated.positions[e := v[0]])
            && (w != [] ==> r.base.velocities == s.base.velocities[e := w[0]]
                            && r.interpolated.velocities == s.interpolated.velocities[e := w[0]])
            && (o != [] ==> r.base.orientations == s.base.orientations[e := o[0]]
                            && r.interpolated.orientations == s.interpolated.orientations[e := o[0]])
            && (v == [] ==> r.base.positions == s.base.positions
                            && r.interpolated.positions == s.interpolated.positions)
            && (w == [] ==> r.base.velocities == s.base.velocities
                            && r.interpolated.velocities == s.interpolated.velocities)
            && (o == [] ==> r.base.orientations == s.base.orientations
                            && r.interpolated.orientations == s.interpolated.orientations)
  {
    hide WithAll, LastPosition, LastVelocity, LastOrientation;
    WithAllEntries(s.base, e, cs);
    WithAllEntries(s.interpolated, e, cs);
  }

  /** A destroyed entity is in none of the tables, and every other one is as it was. */
  lemma {:induction false} DestroyedEntries(s: Queue, e: nat, k: nat)
    ensures var r := Destroyed(s, e);
            && e !in r.base.positions && e !in r.base.velocities && e !in r.base.orientations
            && e !in r.interpolated.positions && e !in r.interpolated.velocities && e !in r.interpolated.orientations
            && (k != e && k in s.base.positions ==> k in r.base.positions && r.base.positions[k] == s.base.positions[k])
            && (k != e && k in s.base.velocities ==>
                  k in r.base.velocities && r.base.velocities[k] == s.base.velocities[k])
            && (k != e && k in s.base.orientations ==>
                  k in r.base.orientations && r.base.orientations[k] == s.base.orientations[k])
            && r.pending == s.pending && r.predictions == s.predictions
  {
  }

  /**
   What a controller writes goes to what is shown of its entity: the linear velocity, and the orientation if it turned.
   Nothing else changes.
   */
  lemma {:induction false} SteeredEntries(s: Queue, e: nat, turned: bool, o: Orientation, linear: Vec, k: nat)
    ensures var r := Steered(s, e, turned, o, linear);
            var i, j := s.interpolated, r.interpolated;
            && r == s.(interpolated := j) && j.positions == i.positions
            && e in j.velocities && j.velocities[e].linear == linear
            && (e in i.velocities ==> j.velocities[e].angular == i.velocities[e].angular)
            && (e !in i.velocities ==> j.velocities[e].angular == Vec(0.0, 0.0, 0.0))
            && (turned ==> e in j.orientations && j.orientations[e] == o)
            && (k != e ==> (k in j.velocities <==> k in i.velocities)
                           && (k in i.velocities ==> j.velocities[k] == i.velocities[k]))
            && (k != e || !turned ==> (k in j.orientations <==> k in i.orientations)
                                      && (k in i.orientations ==> j.orientations[k] == i.orientations[k]))
  {
  }

  /** The fifth latest accepted state can be had, and the one before it has been overwritten by the latest. */
  lemma {:induction false} FiveKept(s: Queue, st: GameState)
    requires Inv(s) && st.id > s.last && |s.accepted| >= 5 && s.index < 0x7fff_ffff
    ensures var r := Received(s, st);
            && |r.ring| == 5 && r.ring[Slot(r.index, 1)] == st
            && r.ring[Slot(r.index, 5)] == s.accepted[|s.accepted| - 4]
            && Slot(r.index, 1) == Slot(s.index, 5)
  {
    hide Checked, Monotone, Kept, TimeKept;
    var r := Received(s, st);
    assert Inv(r) && r.accepted == s.accepted + [st] by { StepInv(s, Receive(st)); }
    RingSlot(r, 1);
    RingSlot(r, 5);
    assert (s.index + 1 - 1) % 5 == (s.index - 5) % 5;
  }
}

/** The client's state queue as the object whose handlers and ticks update it in place. */
module ClientStates {
  import opened GameStates

  method CopyInto<T>(into: map<nat, T>, from: map<nat, T>) returns (r: map<nat, T>)
    ensures r == into + from
  {
    r := into;
    var todo := from.Keys;
    while todo != {}
      invariant todo <= from.Keys
      invariant r.Keys == into.Keys + (from.Keys - todo)
      invariant forall k :: k in r ==> r[k] == if k in from && k !in todo then from[k] else into[k]
      decreases |todo|
    {
      var k :| k in todo;
      r := r[k := from[k]];
      todo := todo - {k};
    }
  }

  method BlendInto<T>(into: map<nat, T>, base: map<nat, T>, to: map<nat, T>, mix: (T, T, T) -> T, default: T)
    returns (r: map<nat, T>)
    ensures r == Blend(into, base, to, mix, default)
  {
    hide Partial, Blend;
    r := into;
    var todo := to.Keys;
    PartialEnds(into, base, to, mix, default);
    while todo != {}
      invariant todo <= to.Keys
      invariant r == Partial(into, base, to, mix, default, todo)
      decreases |todo|
    {
      var k :| k in todo;
      PartialStep(into, base, to, mix, default, todo, k);
      if k in base {
        r := r[k := mix(At(r, k, default), base[k], to[k])];
      } else {
        r := r[k := to[k]];
      }
      todo := todo - {k};
    }
  }

  /** The blend with some of the entries still to do. */
  function Partial<T>(into: map<nat, T>, base: map<nat, T>, to: map<nat, T>, mix: (T, T, T) -> T, default: T,
                      todo: set<nat>): (r: map<nat, T>)
  {
    map k | k in into.Keys + (to.Keys - todo) ::
      if k in to && k !in todo then BlendAt(into, base, to, mix, default, k) else into[k]
  }

  lemma {:induction false} PartialEnds<T>(into: map<nat, T>, base: map<nat, T>, to: map<nat, T>,
                                          mix: (T, T, T) -> T, default: T)
    ensures Partial(into, base, to, mix, default, to.Keys) == into
    ensures Partial(into, base, to, mix, default, {}) == Blend(into, base, to, mix, default)
  {
    hide BlendAt;
    var r, b := Partial(into, base, to, mix, default, {}), Blend(into, base, to, mix, default);
    forall k | k in b ensures k in r && r[k] == b[k] {
      if k !in to {
        Untouched(into, base, to, mix, default, k);
      }
    }
    assert r.Keys == b.Keys;
    assert to.Keys - to.Keys == {};
  }

  lemma {:induction false} Untouched<T>(into: map<nat, T>, base: map<nat, T>, to: map<nat, T>,
                                        mix: (T, T, T) -> T, default: T, k: nat)
    requires k in into && k !in to
    ensures BlendAt(into, base, to, mix, default, k) == into[k]
  {
  }

  lemma {:induction false} PartialStep<T>(into: map<nat, T>, base: map<nat, T>, to: map<nat, T>,
                                          mix: (T, T, T) -> T, default: T, todo: set<nat>, k: nat)
    requires k in todo && todo <= to.Keys
    ensures var r := Partial(into, base, to, mix, default, todo);
            && Partial(into, base, to, mix, default, todo - {k})
               == r[k := if k in base then mix(At(r, k, default), base[k], to[k]) else to[k]]
  {
    var r := Partial(into, base, to, mix, default, todo);
    assert At(r, k, default) == At(into, k, default);
    var v := BlendAt(into, base, to, mix, default, k);
    assert v == if k in base then mix(At(r, k, default), base[k], to[k]) else to[k];
    hide BlendAt;
    assert Partial(into, base, to, mix, default, todo - {k}) == r[k := v];
  }

  class ClientGameStateQueue {
    const ring: array<GameState>
    var index: nat
    var stats: Stats
    var base: GameState
    var interpolated: GameState
    var pending: seq<GameState>
    var last: nat
    var commandId: nat
    var accumulator: real
    var clientId: nat
    var predictions: map<nat, GameState>
    ghost var arrived: seq<nat>
    ghost var accepted: seq<GameState>
    ghost var popped: seq<nat>
    ghost var elapsed: real

    ghost function State(): (s: Queue)
      reads this, ring
    {
      Queue(base, interpolated, pending, accumulator, last, commandId, clientId, predictions, ring[..], index, stats,
            arrived, accepted, popped, elapsed)
    }

    ghost predicate Valid()
      reads this, ring
    {
      Inv(State())
    }

    constructor (stats: Stats)
      ensures Valid() && State() == Init(stats) && fresh(ring)
    {
      ring := new GameState[5](i => BLANK);
      index, this.stats := RING - 1, stats;
      base, interpolated, pending := BLANK, BLANK, [];
      last, commandId, accumulator, clientId, predictions := 0, 0, 0.0, 0, map[];
      arrived, accepted, popped, elapsed := [], [], [], 0.0;
      new;
      assert ring[..] == [BLANK, BLANK, BLANK, BLANK, BLANK];
      InitInv(stats);
    }

    method SetClientID(id: nat)
      requires Valid()
      modifies this`clientId
      ensures Valid() && State() == old(State()).(clientId := id)
    {
      hide Inv;
      StepInv(State(), SetClient(id));
      clientId := id;
    }

    method SetCommandID(id: nat)
      requires Valid()
      modifies this`commandId
      ensures Valid() && State() == old(State()).(commandId := id)
    {
      hide Inv;
      StepInv(State(), SetCommand(id));
      commandId := id;
    }

    /** The k-th latest state, for a small positive offset. */
    method GetGameState(offset: int) returns (st: GameState)
      requires Valid()
      ensures st == ring[Slot(index, offset)]
      ensures index < 0x8000_0000 && 1 <= offset <= RING && offset <= |accepted| ==>
                st == accepted[|accepted| - offset]
    {
      assert ring.Length == RING by { RingSize(State()); }
      if index < 0x8000_0000 && 1 <= offset <= RING && offset <= |accepted| {
        RingSlot(State(), offset);
      }
      st := ring[(index - offset) % WORD % 5];
    }

    method QueueServerState(st: GameState)
      requires Valid()
      modifies this, ring
      ensures Valid() && State() == Received(old(State()), st)
    {
      hide Inv, Checked;
      ghost var was := State();
      assert ring.Length == RING by { Sized(State()); }
      ReceivedInv(State(), st);
      arrived := arrived + [st.id];
      if st.id > last {
        ring[index % 5] := st;
        index := index + 1;
        last := st.id;
        CheckedAlone(was, State(), st);
        var queued := CheckPredictionResult(st);
        pending := pending + [queued];
        accepted := accepted + [st];
      }
    }

    /** How far a state is from the prediction it acknowledges. */
    method Compare(st: GameState, p: GameState, statePos: Vec)
      returns (queued: GameState, positionDiff: Vec, velocityDiff: Vec)
      ensures queued == st.(velocities := st.velocities[clientId := At(st.velocities, clientId, AT_REST)])
      ensures positionDiff == Minus(statePos, At(p.positions, clientId, ORIGIN))
      ensures velocityDiff == Minus(At(st.velocities, clientId, AT_REST).linear,
                                    At(p.velocities, clientId, AT_REST).linear)
    {
      positionDiff := Minus(statePos, At(p.positions, clientId, ORIGIN));
      queued := st.(velocities := st.velocities[clientId := At(st.velocities, clientId, AT_REST)]);
      velocityDiff := Minus(queued.velocities[clientId].linear, At(p.velocities, clientId, AT_REST).linear);
    }

    /** Forgets acknowledged predictions, in any order, and notes how far off the acknowledged one was. */
    method CheckPredictionResult(st: GameState) returns (queued: GameState)
      modifies this`stats, this`predictions
      ensures State() == Checked(old(State()), st).0 && queued == Checked(old(State()), st).1
    {
      hide Minus, Inv;
      queued := st;
      if clientId == 0 {
        return;
      }
      stats := stats.(ackedId := st.commandId);
      var statePos := stats.serverPositionNext;
      stats := stats.(serverPosition := stats.serverPositionNext);
      queued := queued.(positions := queued.positions[clientId := At(queued.positions, clientId, ORIGIN)]);
      stats := stats.(serverPositionNext := queued.positions[clientId]);
      var positionDiff, velocityDiff;
      queued, positionDiff, velocityDiff := EraseAcked(queued, statePos);
      stats := stats.(clientPosition := positionDiff, clientVelocity := velocityDiff);
    }

    /** The erasing loop. */
    method EraseAcked(st: GameState, statePos: Vec) returns (queued: GameState, positionDiff: Vec, velocityDiff: Vec)
      modifies this`predictions
      ensures predictions == Newer(old(predictions), st.commandId)
      ensures (positionDiff, velocityDiff) == Error(statePos, old(predictions), clientId, st)
      ensures queued == if st.commandId in old(predictions)
                        then st.(velocities := st.velocities[clientId := At(st.velocities, clientId, AT_REST)]) else st
    {
      hide Minus;
      queued, positionDiff, velocityDiff := st, ORIGIN, ORIGIN;
      ghost var held := predictions;
      var todo := predictions.Keys;
      while todo != {}
        invariant todo <= held.Keys
        invariant predictions == map k | k in held && (k in todo || k > st.commandId) :: held[k]
        invariant if st.commandId in held && st.commandId !in todo then
                    && queued == st.(velocities := st.velocities[clientId := At(st.velocities, clientId, AT_REST)])
                    && (positionDiff, velocityDiff) == Error(statePos, held, clientId, st)
                  else (queued, positionDiff, velocityDiff) == (st, ORIGIN, ORIGIN)
        decreases |todo|
      {
        var k :| k in todo;
        if k <= st.commandId {
          if k == st.commandId {
            queued, positionDiff, velocityDiff := Compare(queued, predictions[k], statePos);
          }
          predictions := predictions - {k};
        }
        todo := todo - {k};
      }
    }

    method UpdatePredictions(st: GameState)
      requires Valid()
      modifies this`stats, this`predictions
      ensures Valid() && State() == Predicted(old(State()), st)
    {
      hide Inv;
      StepInv(State(), Predict(st));
      if clientId == 0 {
        return;
      }
      stats := stats.(commandId := commandId);
      var p := BLANK;
      var nudge := Scaled(stats.clientPosition, 0.125);
      p := p.(positions := p.positions[clientId := Plus(At(st.positions, clientId, ORIGIN), nudge)]);
      p := p.(velocities := p.velocities[clientId := At(st.velocities, clientId, AT_REST)]);
      p := p.(orientations := p.orientations[clientId := At(st.orientations, clientId, UPRIGHT)]);
      if commandId !in predictions {
        predictions := predictions[commandId := p];
      }
    }

    method Interpolate(delta: real, slerp: Slerp)
      requires Valid() && delta >= 0.0
      modifies this
      ensures Valid() && State() == Ticked(old(State()), delta, slerp)
    {
      hide Inv, Advanced;
      NextAbove(State());
      TickedInv(State(), delta, slerp);
      stats := stats.(stateCount := |pending|);
      if |pending| < 1 {
        return;
      }
      accumulator := accumulator + delta;
      elapsed := elapsed + delta;
      var to := pending[0];
      stats := stats.(lastStateTime := to.timestamp);
      Advance(to, slerp);
    }

    /** The two branches of the tick. */
    method Advance(to: GameState, slerp: Slerp)
      requires Ordered(State()) && pending != [] && to == pending[0]
      modifies this`base, this`interpolated, this`pending, this`accumulator, this`popped
      ensures State() == Advanced(old(State()), slerp)
    {
      hide Snapped, Blended, Factor, Pops, Ids;
      if accumulator >= RATE {
        SnapTo(to);
        PopPaid(to.id);
      } else {
        Towards(to, slerp);
      }
    }

    /** The front state becomes the base and the interpolated state. */
    method SnapTo(to: GameState)
      modifies this`base, this`interpolated
      ensures base == Snapped(old(base), to, clientId, commandId, predictions)
      ensures interpolated == Snapped(old(interpolated), to, clientId, commandId, predictions)
    {
      hide Overridden;
      base := CopyAll(base, to);
      interpolated := CopyAll(interpolated, to);
      base := Override(base);
      interpolated := Override(interpolated);
    }

    method CopyAll(g: GameState, to: GameState) returns (r: GameState)
      ensures r == Copied(g, to)
    {
      var p := CopyInto(g.positions, to.positions);
      var v := CopyInto(g.velocities, to.velocities);
      var o := CopyInto(g.orientations, to.orientations);
      r := g.(positions := p, velocities := v, orientations := o);
    }

    method Override(g: GameState) returns (r: GameState)
      ensures r == Overridden(g, clientId, commandId, predictions)
    {
      r := g;
      if clientId != 0 && commandId in predictions {
        var p := predictions[commandId];
        r := r.(positions := r.positions[clientId := At(p.positions, clientId, ORIGIN)]);
        r := r.(velocities := r.velocities[clientId := At(p.velocities, clientId, AT_REST)]);
      }
    }

    /** Pops one state per period of accumulated time; the id noted is the front's at entry. */
    method PopPaid(id: nat)
      requires pending != [] && accumulator >= RATE
      modifies this`base, this`pending, this`accumulator, this`popped
      ensures var n := Pops(old(accumulator), |old(pending)|);
              && pending == old(pending)[n..] && accumulator == old(accumulator) - RATE * (n as real)
              && popped == old(popped) + Ids(old(pending)[..n])
              && base == old(base).(id := id)
    {
      ghost var i := 0;
      while |pending| > 0 && accumulator >= RATE
        invariant i <= |old(pending)| && pending == old(pending)[i..]
        invariant accumulator == old(accumulator) - RATE * (i as real)
        invariant Pops(old(accumulator), |old(pending)|) == i + Pops(accumulator, |pending|)
        invariant popped == old(popped) + Ids(old(pending)[..i])
        invariant base == if i == 0 then old(base) else old(base).(id := id)
        decreases |pending|
      {
        accumulator := accumulator - RATE;
        base := base.(id := id);
        popped := popped + [pending[0].id];
        assert old(pending)[..i + 1] == old(pending)[..i] + [pending[0]];
        pending := pending[1..];
        i := i + 1;
      }
    }

    /** Moves the interpolated state towards the front one. */
    method Towards(to: GameState, slerp: Slerp)
      requires to.id > base.id
      modifies this`interpolated
      ensures var f := Factor(base.id, to.id, accumulator);
              interpolated == if f > 0.0 then Blended(old(interpolated), base, to, f, slerp) else old(interpolated)
    {
      hide Blend;
      var f := accumulator / (RATE * ((to.id - base.id) as real));
      if f > 0.0 {
        var p := BlendInto(interpolated.positions, base.positions, to.positions, PositionMix(f), ORIGIN);
        interpolated := interpolated.(positions := p);
        var v := BlendInto(interpolated.velocities, base.velocities, to.velocities, VelocityMix(f), AT_REST);
        interpolated := interpolated.(velocities := v);
        var o := BlendInto(interpolated.orientations, base.orientations, to.orientations,
                           OrientationMix(slerp, f), UPRIGHT);
        interpolated := interpolated.(orientations := o);
      }
    }

    method OnEntityCreated(e: nat, cs: seq<Component>)
      requires Valid()
      modifies this`base, this`interpolated
      ensures Valid() && State() == Created(old(State()), e, cs)
    {
      hide Inv, With;
      StepInv(State(), Create(e, cs));
      var i := 0;
      while i < |cs|
        invariant 0 <= i <= |cs|
        invariant base == WithAll(old(base), e, cs[..i])
        invariant interpolated == WithAll(old(interpolated), e, cs[..i])
      {
        assert cs[..i + 1][..i] == cs[..i];
        interpolated := With(interpolated, e, cs[i]);
        base := With(base, e, cs[i]);
        i := i + 1;
      }
      assert cs[..|cs|] == cs;
    }

    method OnEntityDestroyed(e: nat)
      requires Valid()
      modifies this`base, this`interpolated
      ensures Valid() && State() == Destroyed(old(State()), e)
    {
      hide Inv;
      StepInv(State(), Destroy(e));
      interpolated := interpolated.(positions := interpolated.positions - {e});
      base := base.(positions := base.positions - {e});
      interpolated := interpolated.(orientations := interpolated.orientations - {e});
      base := base.(orientations := base.orientations - {e});
      interpolated := interpolated.(velocities := interpolated.velocities - {e});
      base := base.(velocities := base.velocities - {e});
    }
  }

  lemma {:induction false} NextAbove(s: Queue)
    requires Inv(s)
    ensures Ordered(s) && (s.pending != [] ==> s.pending[0].id > s.base.id)
  {
    hide Monotone, Kept, TimeKept, RingHolds;
  }

  lemma {:induction false} Sized(s: Queue)
    requires Inv(s)
    ensures |s.ring| == RING && Ordered(s)
  {
  }
}

/**
 The client's queue of server states: which arriving states are accepted, how a tick consumes them and
 interpolates towards the next one, and the ring of the last five. Coordinates are reals.
 */
module GameStates {

  const RATE: real := 0.125
  const RING: nat := 5
  const WORD: nat := 0x1_0000_0000

  // ---------------------------------------------------------------- states

  datatype Vec = Vec(x: real, y: real, z: real)
  datatype Quat = Quat(w: real, x: real, y: real, z: real)
  datatype Velocity = Velocity(linear: Vec, angular: Vec)
  datatype Orientation = Orientation(value: Quat, rotation: Vec)

  const ORIGIN := Vec(0.0, 0.0, 0.0)
  const AT_REST := Velocity(ORIGIN, ORIGIN)
  const UPRIGHT := Orientation(Quat(1.0, 0.0, 0.0, 0.0), ORIGIN)

  datatype GameState = GameState(
    positions: map<nat, Vec>, velocities: map<nat, Velocity>, orientations: map<nat, Orientation>,
    id: nat, commandId: nat, timestamp: nat)

  const BLANK := GameState(map[], map[], map[], 0, 0, 0)

  datatype Stats = Stats(
    ackedId: nat, commandId: nat, serverPosition: Vec, serverPositionNext: Vec,
    clientPosition: Vec, clientVelocity: Vec, lastStateTime: nat, stateCount: nat)

  /**
   The queue's fields. The last four are history no code reads: ids in order of arrival, the accepted
   states, the ids popped so far, and the time counted by ticks that found a state.
   */
  datatype Queue = Queue(
    base: GameState, interpolated: GameState, pending: seq<GameState>, accumulator: real,
    last: nat, commandId: nat, clientId: nat, predictions: map<nat, GameState>,
    ring: seq<GameState>, index: nat, stats: Stats,
    arrived: seq<nat>, accepted: seq<GameState>, popped: seq<nat>, elapsed: real)

  function Init(stats: Stats): (s: Queue)
    ensures |s.ring| == RING
  {
    Queue(BLANK, BLANK, [], 0.0, 0, 0, 0, map[], [BLANK, BLANK, BLANK, BLANK, BLANK], RING - 1, stats,
          [], [], [], 0.0)
  }

  function At<T>(m: map<nat, T>, k: nat, default: T): (v: T) {
    if k in m then m[k] else default
  }

  function Minus(a: Vec, b: Vec): (c: Vec) {
    Vec(a.x - b.x, a.y - b.y, a.z - b.z)
  }

  // ---------------------------------------------------------------- arrival of a state

  /** Reading the client's own entries of a state creates them when they are missing. */
  function Touched(st: GameState, client: nat, acked: bool): (r: GameState) {
    st.(positions := st.positions[client := At(st.positions, client, ORIGIN)],
        velocities := if acked then st.velocities[client := At(st.velocities, client, AT_REST)]
                      else st.velocities)
  }

  function Newer(p: map<nat, GameState>, command: nat): (r: map<nat, GameState>) {
    map k | k in p && k > command :: p[k]
  }

  /** The error of the prediction that a state acknowledges, against the server position one state back. */
  function Error(next: Vec, predictions: map<nat, GameState>, client: nat, st: GameState): (e: (Vec, Vec)) {
    if st.commandId in predictions then
      var p := predictions[st.commandId];
      (Minus(next, At(p.positions, client, ORIGIN)),
       Minus(At(st.velocities, client, AT_REST).linear, At(p.velocities, client, AT_REST).linear))
    else (ORIGIN, ORIGIN)
  }

  /** What the prediction check leaves of the queue, and the state it queues. */
  function Checked(s: Queue, st: GameState): (r: (Queue, GameState)) {
    if s.clientId == 0 then (s, st)
    else
      var error := Error(s.stats.serverPositionNext, s.predictions, s.clientId, st);
      (s.(predictions := Newer(s.predictions, st.commandId),
          stats := s.stats.(ackedId := st.commandId,
                            serverPosition := s.stats.serverPositionNext,
                            serverPositionNext := At(st.positions, s.clientId, ORIGIN),
                            clientPosition := error.0, clientVelocity := error.1)),
       Touched(st, s.clientId, st.commandId in s.predictions))
  }

  /** The check reads and writes only what concerns predictions. */
  lemma {:induction false} CheckedAlone(s: Queue, s': Queue, st: GameState)
    requires s'.clientId == s.clientId && s'.predictions == s.predictions && s'.stats == s.stats
    ensures Checked(s, st).1 == Checked(s', st).1
    ensures var c := Checked(s', st).0;
            c == s'.(predictions := c.predictions, stats := c.stats)
            && Checked(s, st).0 == s.(predictions := c.predictions, stats := c.stats)
  {
    hide Error, Newer, Touched;
  }

  function Received(s: Queue, st: GameState): (r: Queue)
    requires |s.ring| == RING
    ensures |r.ring| == RING
  {
    if st.id > s.last then
      var c := Checked(s, st);
      c.0.(ring := s.ring[s.index % RING := st], index := s.index + 1, last := st.id,
           pending := s.pending + [c.1],
           arrived := s.arrived + [st.id], accepted := s.accepted + [st])
    else s.(arrived := s.arrived + [st.id])
  }

  /** `GetGameState`: the subtraction is done in 32-bit unsigned arithmetic. */
  function Slot(index: nat, offset: int): (i: nat)
    ensures i < RING
  {
    (index - offset) % WORD % RING
  }

  // ---------------------------------------------------------------- a tick

  function Mix(a: real, b: real, f: real): (r: real) {
    a * (1.0 - f) + b * f
  }

  function Lerp(a: Vec, b: Vec, f: real): (r: Vec) {
    Vec(Mix(a.x, b.x, f), Mix(a.y, b.y, f), Mix(a.z, b.z, f))
  }

  type Slerp = (Quat, Quat, real) -> Quat

  /** An entry of `to` that `base` has is mixed, another one copied; the rest stays. */
  function BlendAt<T>(into: map<nat, T>, base: map<nat, T>, to: map<nat, T>, mix: (T, T, T) -> T, default: T, k: nat)
    : (v: T)
    requires k in into || k in to
  {
    if k !in to then into[k]
    else if k in base then mix(At(into, k, default), base[k], to[k])
    else to[k]
  }

  function Blend<T>(into: map<nat, T>, base: map<nat, T>, to: map<nat, T>, mix: (T, T, T) -> T, default: T)
    : (r: map<nat, T>)
  {
    map k | k in into.Keys + to.Keys :: BlendAt(into, base, to, mix, default, k)
  }

  function Factor(baseId: nat, toId: nat, acc: real): (f: real)
    requires toId > baseId
  {
    acc / (RATE * ((toId - baseId) as real))
  }

  function Blended(i: GameState, b: GameState, to: GameState, f: real, slerp: Slerp): (r: GameState) {
    i.(positions := Blend(i.positions, b.positions, to.positions, PositionMix(f), ORIGIN),
       velocities := Blend(i.velocities, b.velocities, to.velocities, VelocityMix(f), AT_REST),
       orientations := Blend(i.orientations, b.orientations, to.orientations, OrientationMix(slerp, f), UPRIGHT))
  }

  function PositionMix(f: real): (mix: (Vec, Vec, Vec) -> Vec) {
    (was: Vec, a: Vec, b: Vec) => Lerp(a, b, f)
  }

  function VelocityMix(f: real): (mix: (Velocity, Velocity, Velocity) -> Velocity) {
    (was: Velocity, a: Velocity, b: Velocity) => Velocity(Lerp(a.linear, b.linear, f), Lerp(a.angular, b.angular, f))
  }

  function OrientationMix(slerp: Slerp, f: real): (mix: (Orientation, Orientation, Orientation) -> Orientation) {
    (was: Orientation, a: Orientation, b: Orientation) => Orientation(slerp(a.value, b.value, f), was.rotation)
  }

  function Copied(g: GameState, to: GameState): (r: GameState)
    ensures r.id == g.id
  {
    g.(positions := g.positions + to.positions, velocities := g.velocities + to.velocities,
       orientations := g.orientations + to.orientations)
  }

  /** The client's own entity moves to its prediction, when there is one for the current command. */
  function Overridden(g: GameState, client: nat, command: nat, predictions: map<nat, GameState>): (r: GameState)
    ensures r.id == g.id
  {
    if client != 0 && command in predictions then
      var p := predictions[command];
      g.(positions := g.positions[client := At(p.positions, client, ORIGIN)],
         velocities := g.velocities[client := At(p.velocities, client, AT_REST)])
    else g
  }

  function Snapped(g: GameState, to: GameState, client: nat, command: nat, predictions: map<nat, GameState>)
    : (r: GameState)
  {
    Overridden(Copied(g, to), client, command, predictions)
  }

  /** How many of m states the accumulated time pays for. */
  function Pops(acc: real, m: nat): (n: nat)
    ensures n <= m
    ensures acc >= 0.0 ==> acc - RATE * (n as real) >= 0.0
    ensures n < m ==> acc - RATE * (n as real) < RATE
    decreases m
  {
    if m == 0 || acc < RATE then 0 else 1 + Pops(acc - RATE, m - 1)
  }

  function Ids(q: seq<GameState>): (ids: seq<nat>)
    ensures |ids| == |q|
    ensures forall i :: 0 <= i < |q| ==> ids[i] == q[i].id
  {
    seq(|q|, i requires 0 <= i < |q| => q[i].id)
  }

  /** Ids of the pending states are increasing and above the base state's. */
  predicate Ordered(s: Queue) {
    && (forall i :: 0 <= i < |s.pending| ==> s.base.id < s.pending[i].id <= s.last)
    && (forall i, j :: 0 <= i < j < |s.pending| ==> s.pending[i].id < s.pending[j].id)
  }

  /** Pops what the accumulated time pays for, or moves towards the first pending state. */
  function Advanced(s: Queue, slerp: Slerp): (r: Queue)
    requires Ordered(s) && s.pending != []
  {
    var to, acc := s.pending[0], s.accumulator;
    if acc >= RATE then
      var n := Pops(acc, |s.pending|);
      s.(base := Snapped(s.base, to, s.clientId, s.commandId, s.predictions).(id := to.id),
         interpolated := Snapped(s.interpolated, to, s.clientId, s.commandId, s.predictions),
         pending := s.pending[n..], accumulator := acc - RATE * (n as real),
         popped := s.popped + Ids(s.pending[..n]))
    else
      var f := Factor(s.base.id, to.id, acc);
      s.(interpolated := if f > 0.0 then Blended(s.interpolated, s.base, to, f, slerp) else s.interpolated)
  }

  function Ticked(s: Queue, delta: real, slerp: Slerp): (r: Queue)
    requires Ordered(s)
  {
    var t := s.(stats := s.stats.(stateCount := |s.pending|));
    if s.pending == [] then t
    else
      Advanced(t.(stats := t.stats.(lastStateTime := s.pending[0].timestamp), elapsed := s.elapsed + delta,
                  accumulator := s.accumulator + delta), slerp)
  }

  // ---------------------------------------------------------------- predictions and entities

  function Scaled(v: Vec, f: real): (r: Vec) {
    Vec(v.x * f, v.y * f, v.z * f)
  }

  function Plus(a: Vec, b: Vec): (c: Vec) {
    Vec(a.x + b.x, a.y + b.y, a.z + b.z)
  }

  /** A prediction already held for the command is kept. */
  function Predicted(s: Queue, st: GameState): (r: Queue) {
    if s.clientId == 0 then s
    else
      var c := s.clientId;
      var p := BLANK.(
        positions := map[c := Plus(At(st.positions, c, ORIGIN), Scaled(s.stats.clientPosition, 0.125))],
        velocities := map[c := At(st.velocities, c, AT_REST)],
        orientations := map[c := At(st.orientations, c, UPRIGHT)]);
      s.(stats := s.stats.(commandId := s.commandId),
         predictions := if s.commandId in s.predictions then s.predictions else s.predictions[s.commandId := p])
  }

  datatype Component = PositionOf(v: Vec) | VelocityOf(w: Velocity) | OrientationOf(o: Orientation) | Other

  function With(g: GameState, e: nat, c: Component): (r: GameState) {
    match c
    case PositionOf(v) => g.(positions := g.positions[e := v])
    case VelocityOf(w) => g.(velocities := g.velocities[e := w])
    case OrientationOf(o) => g.(orientations := g.orientations[e := o])
    case Other => g
  }

  function WithAll(g: GameState, e: nat, cs: seq<Component>): (r: GameState)
    ensures r.id == g.id
  {
    if cs == [] then g else With(WithAll(g, e, cs[..|cs| - 1]), e, cs[|cs| - 1])
  }

  function Without(g: GameState, e: nat): (r: GameState)
    ensures r.id == g.id
  {
    g.(positions := g.positions - {e}, velocities := g.velocities - {e}, orientations := g.orientations - {e})
  }

  function Created(s: Queue, e: nat, cs: seq<Component>): (r: Queue) {
    s.(base := WithAll(s.base, e, cs), interpolated := WithAll(s.interpolated, e, cs))
  }

  function Destroyed(s: Queue, e: nat): (r: Queue) {
    s.(base := Without(s.base, e), interpolated := Without(s.interpolated, e))
  }

  /** What the controller of an entity writes through the reference it is given to the interpolated state. */
  function Steered(s: Queue, e: nat, turned: bool, o: Orientation, linear: Vec): (r: Queue) {
    var i := s.interpolated;
    s.(interpolated := i.(
         orientations := if turned then i.orientations[e := o] else i.orientations,
         velocities := i.velocities[e := Velocity(linear, At(i.velocities, e, AT_REST).angular)]))
  }

  // ---------------------------------------------------------------- what every run keeps

  datatype Event =
    | Receive(st: GameState) | Tick(delta: real, slerp: Slerp) | Predict(st: GameState)
    | SetCommand(command: nat) | SetClient(client: nat)
    | Create(e: nat, cs: seq<Component>) | Destroy(e: nat)
    | Steer(e: nat, turned: bool, o: Orientation, linear: Vec)

  /** An arrival that is above zero and above everything before it. */
  predicate IsRecord(a: seq<nat>, i: nat)
    requires i < |a|
  {
    a[i] > 0 && forall j :: 0 <= j < i ==> a[j] < a[i]
  }

  function Records(a: seq<nat>): (r: seq<nat>) {
    if a == [] then []
    else Records(a[..|a| - 1]) + if IsRecord(a, |a| - 1) then [a[|a| - 1]] else []
  }

  /** The highest id that arrived is the last accepted one. */
  predicate Monotone(s: Queue) {
    && Ids(s.accepted) == Records(s.arrived)
    && (forall i :: 0 <= i < |s.arrived| ==> s.arrived[i] <= s.last)
    && (s.last == 0 || s.last in s.arrived)
  }

  /** Every accepted state has been popped or is pending, in order. */
  predicate Kept(s: Queue) {
    s.popped + Ids(s.pending) == Ids(s.accepted)
  }

  /** Time counted is time accumulated plus one period per popped state. */
  predicate TimeKept(s: Queue) {
    s.accumulator >= 0.0 && s.accumulator + RATE * (|s.popped| as real) == s.elapsed
  }

  /** The k-th slot back from the next to be written. */
  function Latest(s: Queue, k: nat): (st: GameState)
    requires |s.ring| == RING
  {
    s.ring[(s.index - k) % RING]
  }

  /** The ring gives back the k-th latest accepted state, up to the fifth. */
  predicate RingHolds(s: Queue) {
    && |s.ring| == RING
    && s.index == RING - 1 + |s.accepted|
    && forall k :: 1 <= k <= RING && k <= |s.accepted| ==> Latest(s, k) == s.accepted[|s.accepted| - k]
  }

  predicate Inv(s: Queue) {
    && Ordered(s) && s.base.id <= s.last
    && Monotone(s) && Kept(s) && TimeKept(s) && RingHolds(s)
  }

  predicate Allowed(e: Event) {
    e.Tick? ==> e.delta >= 0.0
  }

  function Step(s: Queue, e: Event): (r: Queue)
    requires Inv(s)
  {
    match e
    case Receive(st) => Received(s, st)
    case Tick(delta, slerp) => Ticked(s, delta, slerp)
    case Predict(st) => Predicted(s, st)
    case SetCommand(command) => s.(commandId := command)
    case SetClient(client) => s.(clientId := client)
    case Create(e, cs) => Created(s, e, cs)
    case Destroy(e) => Destroyed(s, e)
    case Steer(e, turned, o, linear) => Steered(s, e, turned, o, linear)
  }

  lemma {:induction false} RecordsGrow(a: seq<nat>, x: nat)
    ensures Records(a + [x]) == Records(a) + if IsRecord(a + [x], |a|) then [x] else []
  {
    assert (a + [x])[..|a|] == a;
  }

  lemma {:induction false} ReceivedMonotone(s: Queue, st: GameState)
    requires Monotone(s) && |s.ring| == RING
    ensures Monotone(Received(s, st))
  {
    hide Checked;
    var r := Received(s, st);
    RecordsGrow(s.arrived, st.id);
    var all := s.arrived + [st.id];
    if st.id > s.last {
      assert IsRecord(all, |s.arrived|);
      assert Ids(r.accepted) == Ids(s.accepted) + [st.id];
      assert all[|s.arrived|] == r.last;
    } else {
      if s.last != 0 {
        var i :| 0 <= i < |s.arrived| && s.arrived[i] == s.last;
        assert all[i] >= all[|s.arrived|];
      }
      assert !IsRecord(all, |s.arrived|);
    }
  }

  lemma {:induction false} ReceivedRing(s: Queue, st: GameState)
    requires RingHolds(s)
    ensures RingHolds(Received(s, st))
  {
    hide Checked;
    var r := Received(s, st);
    if st.id > s.last {
      forall k | 1 <= k <= RING && k <= |r.accepted|
        ensures Latest(r, k) == r.accepted[|r.accepted| - k]
      {
        if k == 1 {
          assert r.index - k == s.index;
        } else {
          assert r.index - k == s.index - (k - 1);
          assert (s.index - (k - 1)) % RING != s.index % RING;
          assert Latest(r, k) == Latest(s, k - 1);
        }
      }
    } else {
      forall k | 1 <= k <= RING && k <= |r.accepted| ensures Latest(r, k) == r.accepted[|r.accepted| - k] {
        assert Latest(r, k) == Latest(s, k);
      }
    }
  }

  lemma {:induction false} ReceivedInv(s: Queue, st: GameState)
    requires Inv(s)
    ensures Inv(Received(s, st))
  {
    hide Monotone, RingHolds, TimeKept, Error, Newer;
    assert |s.ring| == RING by { RingSize(s); }
    ReceivedMonotone(s, st);
    ReceivedRing(s, st);
    var r := Received(s, st);
    assert TimeKept(r) by { SameTime(s, r); }
    if st.id > s.last {
      assert Ids(r.pending) == Ids(s.pending) + [st.id];
      assert Ids(r.accepted) == Ids(s.accepted) + [st.id];
      assert s.popped + (Ids(s.pending) + [st.id]) == (s.popped + Ids(s.pending)) + [st.id];
    }
  }

  lemma {:induction false} RingSize(s: Queue)
    requires RingHolds(s)
    ensures |s.ring| == RING
  {
  }

  lemma {:induction false} SameTime(s: Queue, r: Queue)
    requires TimeKept(s) && r.accumulator == s.accumulator && r.popped == s.popped && r.elapsed == s.elapsed
    ensures TimeKept(r)
  {
  }

  lemma {:induction false} TickedInv(s: Queue, delta: real, slerp: Slerp)
    requires Inv(s) && delta >= 0.0
    ensures Inv(Ticked(s, delta, slerp))
  {
    hide Monotone, RingHolds, TimeKept, Kept, Ordered, Blended, Snapped, Factor, Pops, Ids;
    var r := Ticked(s, delta, slerp);
    SameHistory(s, r);
    if s.pending != [] && s.accumulator + delta >= RATE {
      PoppedInv(s, r, s.elapsed + delta, Pops(s.accumulator + delta, |s.pending|), s.accumulator + delta);
      SomePopped(s.accumulator + delta, |s.pending|);
    } else {
      WaitedInv(s, r);
    }
  }

  lemma {:induction false} SomePopped(acc: real, m: nat)
    requires acc >= RATE && m > 0
    ensures Pops(acc, m) >= 1
  {
  }

  lemma {:induction false} PoppedInv(s: Queue, r: Queue, elapsed: real, n: nat, acc: real)
    requires Ordered(s) && s.base.id <= s.last && Kept(s) && TimeKept(s) && 1 <= n <= |s.pending|
    requires r.pending == s.pending[n..] && r.base.id == s.pending[0].id && r.last == s.last
    requires r.popped == s.popped + Ids(s.pending[..n]) && r.accepted == s.accepted
    requires acc - s.accumulator == elapsed - s.elapsed && acc - RATE * (n as real) >= 0.0
    requires r.accumulator == acc - RATE * (n as real) && r.elapsed == elapsed
    ensures Ordered(r) && r.base.id <= r.last && Kept(r) && TimeKept(r)
  {
    hide Ordered, Ids;
    PoppedOrdered(s, r, n);
    IdsSplit(s.pending, n);
    Paid(s.accumulator, |s.popped|, s.elapsed, acc, n);
    assert s.popped + Ids(s.pending) == r.popped + Ids(r.pending);
  }

  lemma {:induction false} Paid(before: real, popped: nat, elapsed: real, acc: real, n: nat)
    requires before + RATE * (popped as real) == elapsed
    ensures acc - RATE * (n as real) + RATE * ((popped + n) as real) == elapsed + (acc - before)
  {
    assert (popped + n) as real == popped as real + n as real;
  }

  lemma {:induction false} IdsSplit(q: seq<GameState>, n: nat)
    requires n <= |q|
    ensures Ids(q) == Ids(q[..n]) + Ids(q[n..])
  {
  }

  lemma {:induction false} PoppedOrdered(s: Queue, r: Queue, n: nat)
    requires Ordered(s) && s.base.id <= s.last && 1 <= n <= |s.pending|
    requires r.pending == s.pending[n..] && r.base.id == s.pending[0].id && r.last == s.last
    ensures Ordered(r) && r.base.id <= r.last
  {
    var p, rest := s.pending, r.pending;
    forall i | 0 <= i < |rest| ensures p[0].id < rest[i].id <= s.last {
      assert rest[i] == p[n + i];
    }
    forall i, j | 0 <= i < j < |rest| ensures rest[i].id < rest[j].id {
      assert rest[i] == p[n + i] && rest[j] == p[n + j];
    }
  }

  lemma {:induction false} WaitedInv(s: Queue, r: Queue)
    requires Ordered(s) && s.base.id <= s.last && Kept(s) && TimeKept(s)
    requires r.pending == s.pending && r.base.id == s.base.id && r.last == s.last
    requires r.popped == s.popped && r.accepted == s.accepted
    requires r.accumulator - s.accumulator == r.elapsed - s.elapsed >= 0.0
    ensures Ordered(r) && r.base.id <= r.last && Kept(r) && TimeKept(r)
  {
  }

  lemma {:induction false} SameHistory(s: Queue, r: Queue)
    requires Monotone(s) && RingHolds(s)
    requires r.accepted == s.accepted && r.arrived == s.arrived && r.last == s.last
    requires r.ring == s.ring && r.index == s.index
    ensures Monotone(r) && RingHolds(r)
  {
    hide Ids, Records;
    forall k | 1 <= k <= RING && k <= |r.accepted| ensures Latest(r, k) == r.accepted[|r.accepted| - k] {
      assert Latest(s, k) == s.accepted[|s.accepted| - k];
    }
  }

  lemma {:induction false} StepInv(s: Queue, e: Event)
    requires Inv(s) && Allowed(e)
    ensures Inv(Step(s, e))
  {
    hide Received, Ticked, Monotone, RingHolds, TimeKept, Kept, Ordered, WithAll, Without;
    if e.Receive? {
      ReceivedInv(s, e.st);
    } else if e.Tick? {
      TickedInv(s, e.delta, e.slerp);
    } else {
      var r := Step(s, e);
      assert r.base.id == s.base.id && r.pending == s.pending;
      SameHistory(s, r);
      WaitedInv(s, r);
    }
  }

  /** The queue after a run of events. */
  function Run(s: Queue, es: seq<Event>): (r: Queue)
    requires Inv(s) && forall i :: 0 <= i < |es| ==> Allowed(es[i])
    ensures Inv(r)
    decreases |es|
  {
    hide Inv, Step;
    if es == [] then s
    else
      StepInv(s, es[0]);
      Run(Step(s, es[0]), es[1..])
  }

  /** `GetGameState(k)` is the k-th latest accepted state. */
  lemma {:induction false} RingSlot(s: Queue, k: nat)
    requires Inv(s) && s.index < 0x8000_0000 && 1 <= k <= RING && k <= |s.accepted|
    ensures s.ring[Slot(s.index, k)] == s.accepted[|s.accepted| - k]
  {
    hide Monotone, Kept, TimeKept, Ordered;
    assert Latest(s, k) == s.accepted[|s.accepted| - k];
    assert (s.index - k) % WORD == s.index - k;
  }

  lemma {:induction false} InitInv(stats: Stats)
    ensures Inv(Init(stats))
  {
  }

  // ---------------------------------------------------------------- what holds in every reached state

  lemma {:induction false} Quotient(a: real, b: real)
    requires 0.0 <= a < b
    ensures 0.0 <= a / b < 1.0
  {
    assert a / b * b == a;
  }

  lemma {:induction false} Positive(a: real, b: real)
    requires 0.0 < a && 0.0 < b
    ensures 0.0 < a / b
  {
    assert a / b * b == a;
  }

  /** The interpolation factor is in [0, 1), however many states were skipped. */
  lemma {:induction false} FactorBounds(s: Queue, delta: real)
    requires Inv(s) && s.pending != [] && delta >= 0.0 && s.accumulator + delta < RATE
    ensures 0.0 <= Factor(s.base.id, s.pending[0].id, s.accumulator + delta) < 1.0
  {
    hide Monotone, RingHolds, Kept;
    var d := (s.pending[0].id - s.base.id) as real;
    assert d >= 1.0;
    Quotient(s.accumulator + delta, RATE * d);
  }

  predicate Between(v: real, a: real, b: real) {
    (a <= v <= b) || (b <= v <= a)
  }

  predicate VecBetween(v: Vec, a: Vec, b: Vec) {
    Between(v.x, a.x, b.x) && Between(v.y, a.y, b.y) && Between(v.z, a.z, b.z)
  }

  lemma {:induction false} Product(d: real, f: real)
    requires 0.0 <= d && 0.0 <= f <= 1.0
    ensures 0.0 <= d * f <= d
  {
    assert d * (1.0 - f) == d - d * f;
    assert d * (1.0 - f) >= 0.0;
  }

  lemma {:induction false} Distribute(a: real, b: real, f: real)
    ensures (a - b) * f == a * f - b * f
    ensures f * (a - b) == f * a - f * b
  {
  }

  lemma {:induction false} MixBetween(a: real, b: real, f: real)
    requires 0.0 <= f <= 1.0
    ensures Between(Mix(a, b, f), a, b)
  {
    Distribute(1.0, f, a);
    assert Mix(a, b, f) == a - a * f + b * f;
    if b >= a {
      Product(b - a, f);
      Distribute(b, a, f);
    } else {
      Product(a - b, f);
      Distribute(a, b, f);
    }
  }

  lemma {:induction false} LerpBetween(a: Vec, b: Vec, f: real)
    requires 0.0 <= f <= 1.0
    ensures VecBetween(Lerp(a, b, f), a, b)
  {
    hide Mix, Between;
    MixBetween(a.x, b.x, f);
    MixBetween(a.y, b.y, f);
    MixBetween(a.z, b.z, f);
  }

  /** After a tick that found a state, less than a period is left over unless the states have run out. */
  lemma {:induction false} TickSettles(s: Queue, delta: real, slerp: Slerp)
    requires Inv(s) && delta >= 0.0 && s.pending != []
    ensures var r := Ticked(s, delta, slerp);
            && (r.pending == [] || r.accumulator < RATE)
            && (r.base.id == s.base.id || r.base.id == s.pending[0].id)
            && (r.base.id == s.base.id <==> r.pending == s.pending)
  {
    hide Monotone, RingHolds, Kept, TimeKept, Blended, Snapped, Factor;
    SomePoppedIf(s.accumulator + delta, |s.pending|);
  }

  lemma {:induction false} SomePoppedIf(acc: real, m: nat)
    requires m > 0
    ensures Pops(acc, m) > 0 <==> acc >= RATE
  {
  }

  /**
   After a tick that pops, the base has the id of the first popped state. This is the last popped one, as it
   should be, if and only if the tick popped one: the time did not pay for two, or one state was pending.
   */
  lemma {:induction false} BaseIsLastPopped(s: Queue, delta: real, slerp: Slerp)
    requires Inv(s) && delta >= 0.0 && s.pending != [] && s.accumulator + delta >= RATE
    ensures var r := Ticked(s, delta, slerp);
            && |r.popped| > |s.popped|
            && r.base.id == s.pending[0].id == r.popped[|s.popped|]
            && (r.base.id == r.popped[|r.popped| - 1] <==>
                  s.accumulator + delta < 2.0 * RATE || |s.pending| == 1)
  {
    hide Monotone, RingHolds, Kept, TimeKept, Blended, Snapped, Factor, Pops;
    var acc, m := s.accumulator + delta, |s.pending|;
    PopsOne(acc, m);
    var n := Pops(acc, m);
    assert Ids(s.pending[..n])[0] == s.pending[0].id;
    assert Ids(s.pending[..n])[n - 1] == s.pending[n - 1].id;
  }

  lemma {:induction false} PopsOne(acc: real, m: nat)
    requires acc >= RATE && m > 0
    ensures Pops(acc, m) >= 1 && (Pops(acc, m) == 1 <==> acc < 2.0 * RATE || m == 1)
  {
  }

  lemma {:induction false} TwoReceived(stats: Stats, one: GameState, two: GameState)
    requires one == BLANK.(id := 1) && two == BLANK.(id := 2)
    ensures var q := Received(Received(Init(stats), one), two);
            q.pending == [one, two] && q.accumulator == 0.0 && q.popped == []
  {
    var r := Received(Init(stats), one);
    assert r.pending == [one] && r.last == 1 && r.clientId == 0;
    assert [one] + [two] == [one, two];
  }

  lemma {:induction false} BothPopped(q: Queue, one: GameState, two: GameState, slerp: Slerp)
    requires Inv(q) && one.id == 1 && two.id == 2
    requires q.pending == [one, two] && q.accumulator == 0.0 && q.popped == []
    ensures var s := Ticked(q, 0.25, slerp);
            s.base.id == 1 && s.popped == [1, 2] && s.pending == []
  {
    hide Snapped, Blended, Monotone, Kept, TimeKept, RingHolds;
    assert Pops(0.25, 2) == 1 + Pops(0.125, 1);
    assert Pops(0.125, 1) == 1 + Pops(0.0, 0);
    assert [one, two][..2] == [one, two];
    assert Ids([one, two]) == [1, 2];
  }

  /** Two states arrive and one tick pops both: the base is left with the id of the first. */
  lemma {:induction false} FirstIdKept(stats: Stats, slerp: Slerp)
    ensures var one, two := BLANK.(id := 1), BLANK.(id := 2);
            var s := Run(Init(stats), [Receive(one), Receive(two), Tick(0.25, slerp)]);
            s.base.id == 1 && s.popped == [1, 2] && s.pending == []
  {
    hide Inv, Received, Ticked, Init, Run;
    var one, two := BLANK.(id := 1), BLANK.(id := 2);
    InitInv(stats);
    RunThree(Init(stats), Receive(one), Receive(two), Tick(0.25, slerp));
    TwoReceived(stats, one, two);
    BothPopped(Received(Received(Init(stats), one), two), one, two, slerp);
  }

  lemma {:induction false} RunThree(s: Queue, a: Event, b: Event, c: Event)
    requires Inv(s) && Allowed(a) && Allowed(b) && Allowed(c)
    ensures Inv(Step(s, a)) && Inv(Step(Step(s, a), b))
    ensures Run(s, [a, b, c]) == Step(Step(Step(s, a), b), c)
  {
    hide Inv, Step, Allowed;
    StepInv(s, a);
    var t := Step(s, a);
    StepInv(t, b);
    assert [a, b, c][1..] == [b, c];
    assert Run(s, [a, b, c]) == Run(t, [b, c]);
    RunTwo(t, b, c);
  }

  lemma {:induction false} RunTwo(s: Queue, b: Event, c: Event)
    requires Inv(s) && Allowed(b) && Allowed(c)
    ensures Inv(Step(s, b)) && Run(s, [b, c]) == Step(Step(s, b), c)
  {
    hide Inv, Step, Allowed;
    StepInv(s, b);
    StepInv(Step(s, b), c);
    assert [b, c][1..] == [c] && [c][1..] == [];
    assert Run(Step(s, b), [c]) == Run(Step(Step(s, b), c), []);
  }
}

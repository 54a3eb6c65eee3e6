/**
 What the interpolated state shows: in every reached state, whatever the order of arrivals, ticks, predictions
 and entity events, each entity lies between the base state and the next pending state.
 */
module Interpolation {
  import opened GameStates

  // ---------------------------------------------------------------- one table

  type Table<T> = map<nat, T>

  type Relation<!T> = (T, T, T) -> bool

  /** Entry k of the shown table, against those of the base state and of the next one. */
  ghost predicate ShownAt<T>(shown: Table<T>, base: Table<T>, next: Table<T>, between: Relation<T>, k: nat)
  {
    && (k in base ==> k in shown)
    && (k in base && k in next ==> between(shown[k], base[k], next[k]))
    && (k in base && k !in next ==> shown[k] == base[k])
    && (k in shown && k !in base ==> k in next && shown[k] == next[k])
  }

  /** All entries but those apart. */
  ghost predicate Shows<T>(shown: Table<T>, base: Table<T>, next: Table<T>, between: Relation<T>, apart: set<nat>)
  {
    forall k: nat :: k !in apart ==> ShownAt(shown, base, next, between, k)
  }

  /** Where nothing has moved yet, the base is between. */
  ghost predicate Starts<T(!new)>(between: Relation<T>) {
    forall v, w :: between(v, v, w)
  }

  /** The base shown as it is lies between the base and whatever comes next. */
  lemma {:induction false} SameShows<T(!new)>(shown: Table<T>, base: Table<T>, next: Table<T>, between: Relation<T>,
                                              apart: set<nat>)
    requires Starts(between)
    requires forall k: nat :: k !in apart ==> (k in shown <==> k in base) && (k in base ==> shown[k] == base[k])
    ensures Shows(shown, base, next, between, apart)
  {
  }

  /** A first pending state does not move anything. */
  lemma {:induction false} FirstArrives<T(!new)>(shown: Table<T>, base: Table<T>, next: Table<T>, was: Relation<T>,
                                                 between: Relation<T>, apart: set<nat>)
    requires Starts(between) && Shows(shown, base, map[], was, apart)
    ensures Shows(shown, base, next, between, apart)
  {
    forall k: nat | k !in apart ensures (k in shown <==> k in base) && (k in base ==> shown[k] == base[k]) {
      assert ShownAt(shown, base, map[], was, k);
    }
    SameShows(shown, base, next, between, apart);
  }

  /** When the next state becomes the base, it is shown as it is, whatever comes after it. */
  lemma {:induction false} SnapShows<T(!new)>(shown: Table<T>, base: Table<T>, next: Table<T>, after: Table<T>,
                                              was: Relation<T>, between: Relation<T>, apart: set<nat>)
    requires Starts(between) && Shows(shown, base, next, was, apart)
    ensures Shows(shown + next, base + next, after, between, apart - next.Keys)
  {
    forall k: nat | k !in apart - next.Keys
      ensures (k in shown + next <==> k in base + next)
              && (k in base + next ==> (shown + next)[k] == (base + next)[k])
    {
      if k !in next {
        assert ShownAt(shown, base, next, was, k);
      }
    }
    SameShows(shown + next, base + next, after, between, apart - next.Keys);
  }

  /** The same value put into both. */
  lemma {:induction false} PutShows<T(!new)>(shown: Table<T>, base: Table<T>, next: Table<T>, between: Relation<T>,
                                             apart: set<nat>, e: nat, v: T)
    requires Starts(between) && Shows(shown, base, next, between, apart)
    ensures Shows(shown[e := v], base[e := v], next, between, apart - {e})
  {
    forall k: nat | k !in apart - {e} ensures ShownAt(shown[e := v], base[e := v], next, between, k) {
      if k != e {
        assert ShownAt(shown, base, next, between, k);
      }
    }
  }

  lemma {:induction false} DropShows<T>(shown: Table<T>, base: Table<T>, next: Table<T>, between: Relation<T>,
                                        apart: set<nat>, e: nat)
    requires Shows(shown, base, next, between, apart)
    ensures Shows(shown - {e}, base - {e}, next, between, apart - {e})
  {
    forall k: nat | k !in apart - {e} ensures ShownAt(shown - {e}, base - {e}, next, between, k) {
      if k != e {
        assert ShownAt(shown, base, next, between, k);
      }
    }
  }

  /** Something else put into the shown table alone. */
  lemma {:induction false} PutApart<T>(shown: Table<T>, base: Table<T>, next: Table<T>, between: Relation<T>,
                                       apart: set<nat>, e: nat, v: T)
    requires Shows(shown, base, next, between, apart)
    ensures Shows(shown[e := v], base, next, between, apart + {e})
  {
    forall k: nat | k !in apart + {e} ensures ShownAt(shown[e := v], base, next, between, k) {
      assert ShownAt(shown, base, next, between, k);
    }
  }

  /** Mixing puts every entry of the next state in its place, whatever that was before. */
  lemma {:induction false} BlendShows<T(!new)>(shown: Table<T>, base: Table<T>, next: Table<T>, was: Relation<T>,
                                               between: Relation<T>, apart: set<nat>, mix: (T, T, T) -> T, default: T)
    requires Shows(shown, base, next, was, apart)
    requires forall w, a, b :: between(mix(w, a, b), a, b)
    ensures Shows(Blend(shown, base, next, mix, default), base, next, between, apart - next.Keys)
  {
    var r := Blend(shown, base, next, mix, default);
    forall k: nat | k !in apart - next.Keys ensures ShownAt(r, base, next, between, k) {
      if k in next {
        assert r[k] == BlendAt(shown, base, next, mix, default, k);
      } else {
        assert ShownAt(shown, base, next, was, k);
      }
    }
  }

  lemma {:induction false} FewerApart<T>(shown: Table<T>, base: Table<T>, next: Table<T>, between: Relation<T>,
                                         apart: set<nat>, more: set<nat>)
    requires Shows(shown, base, next, between, apart) && apart <= more
    ensures Shows(shown, base, next, between, more)
  {
  }

  // ---------------------------------------------------------------- movement

  /** v is on the way from a to b, t seconds after a, if b is reached gap eighths of a second after a. */
  predicate OnTheWay(a: real, b: real, gap: nat, t: real, v: real) {
    (v - a) * (gap as real) == (b - a) * (8.0 * t)
  }

  predicate VecOnTheWay(a: Vec, b: Vec, gap: nat, t: real, v: Vec) {
    OnTheWay(a.x, b.x, gap, t, v.x) && OnTheWay(a.y, b.y, gap, t, v.y) && OnTheWay(a.z, b.z, gap, t, v.z)
  }

  /** How many states ahead the next one is, and how much time has accumulated. */
  datatype Way = Way(gap: nat, t: real)

  /** Some time has passed, and not yet all of it. */
  predicate Under(w: Way) {
    0.0 < 8.0 * w.t < w.gap as real
  }

  /** In its place in the base state, or where the accumulated time has brought it. */
  predicate Moved(w: Way, v: Vec, a: Vec, b: Vec) {
    v == a || (Under(w) && VecOnTheWay(a, b, w.gap, w.t, v))
  }

  function Moving(w: Way): (r: Relation<Vec>) {
    (v: Vec, a: Vec, b: Vec) => Moved(w, v, a, b)
  }

  function MovingVelocity(w: Way): (r: Relation<Velocity>) {
    (v: Velocity, a: Velocity, b: Velocity) => v == a || (Moved(w, v.linear, a.linear, b.linear)
                                                         && Moved(w, v.angular, a.angular, b.angular))
  }

  /** Turned as in the base state, or by the fraction of the time that has accumulated. */
  ghost predicate TurnedBetween(slerp: Slerp, w: Way, v: Quat, a: Quat, b: Quat) {
    v == a || exists f: real :: Under(w) && f * (w.gap as real) == 8.0 * w.t && v == slerp(a, b, f)
  }

  ghost function Turning(slerp: Slerp, w: Way): (r: Relation<Orientation>) {
    (v: Orientation, a: Orientation, b: Orientation) => TurnedBetween(slerp, w, v.value, a.value, b.value)
  }

  lemma {:induction false} AllStart(slerp: Slerp, w: Way)
    ensures Starts(Moving(w)) && Starts(MovingVelocity(w)) && Starts(Turning(slerp, w))
  {
  }

  lemma {:induction false} FactorIs(baseId: nat, toId: nat, t: real)
    requires toId > baseId
    ensures Factor(baseId, toId, t) * ((toId - baseId) as real) == 8.0 * t
  {
    var k := (toId - baseId) as real;
    var f := Factor(baseId, toId, t);
    assert f == t / (RATE * k);
    assert f * (RATE * k) == t;
    assert f * k * RATE == f * (RATE * k);
  }

  lemma {:induction false} MixMoves(a: real, b: real, f: real, k: real, t: real)
    requires f * k == 8.0 * t
    ensures (Mix(a, b, f) - a) * k == (b - a) * (8.0 * t)
  {
    Distribute(1.0, f, a);
    Distribute(b, a, f);
    assert Mix(a, b, f) - a == (b - a) * f;
    assert ((b - a) * f) * k == (b - a) * (f * k);
  }

  lemma {:induction false} LerpMoves(a: Vec, b: Vec, baseId: nat, toId: nat, t: real)
    requires toId > baseId
    ensures VecOnTheWay(a, b, toId - baseId, t, Lerp(a, b, Factor(baseId, toId, t)))
  {
    hide Mix, Factor;
    var f, k := Factor(baseId, toId, t), (toId - baseId) as real;
    FactorIs(baseId, toId, t);
    MixMoves(a.x, b.x, f, k, t);
    MixMoves(a.y, b.y, f, k, t);
    MixMoves(a.z, b.z, f, k, t);
  }

  /** What is on the way is between. */
  lemma {:induction false} WayBetween(a: real, b: real, gap: nat, t: real, v: real)
    requires 0.0 < 8.0 * t < gap as real && OnTheWay(a, b, gap, t, v)
    ensures GameStates.Between(v, a, b)
  {
    var k, u := gap as real, 8.0 * t;
    Distribute(v, a, k);
    Distribute(b, a, u);
    Distribute(b, v, k);
    Distribute(k, u, b - a);
    assert (b - v) * k == (b - a) * (k - u);
    SignOf(b - a, u);
    SignOf(b - a, k - u);
    Sign(v - a, k, (b - a) * u);
    Sign(b - v, k, (b - a) * (k - u));
  }

  lemma {:induction false} Sign(d: real, k: real, p: real)
    requires k > 0.0 && d * k == p
    ensures (p >= 0.0 ==> d >= 0.0) && (p <= 0.0 ==> d <= 0.0)
  {
    if d < 0.0 {
      assert -d * k > 0.0;
    }
    if d > 0.0 {
      assert d * k > 0.0;
    }
  }

  lemma {:induction false} SignOf(d: real, u: real)
    requires u >= 0.0
    ensures (d >= 0.0 ==> d * u >= 0.0) && (d <= 0.0 ==> d * u <= 0.0)
  {
  }

  lemma {:induction false} MovedBetween(w: Way, v: Vec, a: Vec, b: Vec)
    requires Moved(w, v, a, b)
    ensures VecBetween(v, a, b)
  {
    if v != a {
      WayBetween(a.x, b.x, w.gap, w.t, v.x);
      WayBetween(a.y, b.y, w.gap, w.t, v.y);
      WayBetween(a.z, b.z, w.gap, w.t, v.z);
    }
  }

  /** Equal steps for equal times, never backwards, and nothing at time 0. */
  lemma {:induction false} StepsEqual(a: real, b: real, gap: nat, t: real, u: real, v: real, w: real)
    requires gap > 0 && OnTheWay(a, b, gap, t, v) && OnTheWay(a, b, gap, u, w)
    ensures (w - v) * (gap as real) == (b - a) * (8.0 * (u - t))
    ensures t == 0.0 ==> v == a
    ensures t <= u ==> (a <= b ==> v <= w) && (a >= b ==> v >= w)
    ensures 8.0 * t == gap as real ==> v == b
  {
    var k := gap as real;
    Distribute(w - a, v - a, k);
    Distribute(8.0 * u, 8.0 * t, b - a);
    assert (w - v) * k == (b - a) * (8.0 * (u - t));
    Sign(w - v, k, (b - a) * (8.0 * (u - t)));
    if t <= u {
      SignOf(b - a, 8.0 * (u - t));
    }
    if t == 0.0 {
      Cancel(v - a, 0.0, k);
    }
    if 8.0 * t == k {
      Cancel(v - a, b - a, k);
    }
  }

  lemma {:induction false} Cancel(a: real, b: real, k: real)
    requires k > 0.0 && a * k == b * k
    ensures a == b
  {
    Distribute(a, b, k);
    Sign(a - b, k, 0.0);
  }

  // ---------------------------------------------------------------- positions, velocities and orientations

  predicate VelocityBetween(v: Velocity, a: Velocity, b: Velocity) {
    VecBetween(v.linear, a.linear, b.linear) && VecBetween(v.angular, a.angular, b.angular)
  }

  /** The entities whose shown velocity, or orientation, the controller has written. */
  datatype Aside = Aside(velocities: set<nat>, orientations: set<nat>)

  /** The state that is interpolated towards. */
  function Next(s: Queue): (g: GameState) {
    if s.pending == [] then BLANK else s.pending[0]
  }

  function WayOf(s: Queue): (w: Way) {
    Way(if s.pending != [] && s.pending[0].id > s.base.id then s.pending[0].id - s.base.id else 0, s.accumulator)
  }

  ghost predicate StateShows(shown: GameState, base: GameState, next: GameState, slerp: Slerp, way: Way,
                             apart: Aside)
  {
    && Shows(shown.positions, base.positions, next.positions, Moving(way), {})
    && Shows(shown.velocities, base.velocities, next.velocities, MovingVelocity(way), apart.velocities)
    && Shows(shown.orientations, base.orientations, next.orientations, Turning(slerp, way), apart.orientations)
  }

  /**
   Every position, and every velocity and orientation but those apart, is in its place in the base, or where the
   accumulated time has brought it towards the next state, where both have it; it is the base's where the next state
   lacks it, and the next state's where the base does; nothing else is shown, and nothing of the base is missing.
   */
  ghost predicate Between(s: Queue, slerp: Slerp, apart: Aside) {
    StateShows(s.interpolated, s.base, Next(s), slerp, WayOf(s), apart)
  }

  // ---------------------------------------------------------------- one step

  /** What the controller has written since a state or a tick last did. */
  function Apart(s: Queue, apart: Aside, e: Event): (r: Aside) {
    match e
    case Steer(k, turned, _, _) =>
      Aside(apart.velocities + {k}, if turned then apart.orientations + {k} else apart.orientations)
    case Destroy(k) => Aside(apart.velocities - {k}, apart.orientations - {k})
    case Tick(delta, _) =>
      if s.pending == [] || s.accumulator + delta <= 0.0 then apart else Settled(apart, s.pending[0])
    case _ => apart
  }

  /** A state that is taken over or blended in puts its entries in their places. */
  function Settled(apart: Aside, next: GameState): (r: Aside) {
    Aside(apart.velocities - next.velocities.Keys, apart.orientations - next.orientations.Keys)
  }

  lemma {:induction false} WithShows(shown: GameState, base: GameState, next: GameState, slerp: Slerp, way: Way,
                                     apart: Aside, e: nat, cs: seq<Component>)
    requires StateShows(shown, base, next, slerp, way, apart)
    ensures StateShows(WithAll(shown, e, cs), WithAll(base, e, cs), next, slerp, way, apart)
  {
    hide Shows, Moving, MovingVelocity, Turning;
    if cs != [] {
      var c := cs[|cs| - 1];
      var i, b := WithAll(shown, e, cs[..|cs| - 1]), WithAll(base, e, cs[..|cs| - 1]);
      WithShows(shown, base, next, slerp, way, apart, e, cs[..|cs| - 1]);
      AllStart(slerp, way);
      match c {
        case PositionOf(v) =>
          StillShows(i.positions, b.positions, next.positions, Moving(way), {}, e, v);
        case VelocityOf(w) =>
          StillShows(i.velocities, b.velocities, next.velocities, MovingVelocity(way), apart.velocities, e, w);
        case OrientationOf(o) =>
          StillShows(i.orientations, b.orientations, next.orientations, Turning(slerp, way), apart.orientations, e, o);
        case _ =>
      }
    }
  }

  /** The same value put into both, with nothing less apart. */
  lemma {:induction false} StillShows<T(!new)>(shown: Table<T>, base: Table<T>, next: Table<T>, between: Relation<T>,
                                               apart: set<nat>, e: nat, v: T)
    requires Starts(between) && Shows(shown, base, next, between, apart)
    ensures Shows(shown[e := v], base[e := v], next, between, apart)
  {
    PutShows(shown, base, next, between, apart, e, v);
    FewerApart(shown[e := v], base[e := v], next, between, apart - {e}, apart);
  }

  lemma {:induction false} WithoutShows(shown: GameState, base: GameState, next: GameState, slerp: Slerp, way: Way,
                                        apart: Aside, e: nat)
    requires StateShows(shown, base, next, slerp, way, apart)
    ensures StateShows(Without(shown, e), Without(base, e), next, slerp, way,
                       Aside(apart.velocities - {e}, apart.orientations - {e}))
  {
    hide Shows, Moving, MovingVelocity, Turning;
    DropShows(shown.positions, base.positions, next.positions, Moving(way), {}, e);
    assert {} - {e} == {};
    DropShows(shown.velocities, base.velocities, next.velocities, MovingVelocity(way), apart.velocities, e);
    DropShows(shown.orientations, base.orientations, next.orientations, Turning(slerp, way), apart.orientations, e);
  }

  lemma {:induction false} OverriddenShows(shown: GameState, base: GameState, next: GameState, slerp: Slerp,
                                           way: Way, apart: Aside, client: nat, command: nat,
                                           predictions: map<nat, GameState>)
    requires StateShows(shown, base, next, slerp, way, apart)
    ensures StateShows(Overridden(shown, client, command, predictions), Overridden(base, client, command, predictions),
                       next, slerp, way, apart)
  {
    hide Shows, Moving, MovingVelocity, Turning;
    if client != 0 && command in predictions {
      var p := predictions[command];
      var v, w := At(p.positions, client, ORIGIN), At(p.velocities, client, AT_REST);
      AllStart(slerp, way);
      StillShows(shown.positions, base.positions, next.positions, Moving(way), {}, client, v);
      StillShows(shown.velocities, base.velocities, next.velocities, MovingVelocity(way), apart.velocities, client, w);
    }
  }

  /** The next state becomes the base, and whatever state comes after it is the next. */
  lemma {:induction false} SnappedShows(shown: GameState, base: GameState, next: GameState, after: GameState,
                                        slerp: Slerp, was: Way, way: Way, apart: Aside, client: nat, command: nat,
                                        predictions: map<nat, GameState>)
    requires StateShows(shown, base, next, slerp, was, apart)
    ensures StateShows(Snapped(shown, next, client, command, predictions),
                       Snapped(base, next, client, command, predictions), after, slerp, way, Settled(apart, next))
  {
    hide Shows, Overridden, Moving, MovingVelocity, Turning;
    AllStart(slerp, way);
    SnapShows(shown.positions, base.positions, next.positions, after.positions, Moving(was), Moving(way), {});
    assert {} - next.positions.Keys == {};
    SnapShows(shown.velocities, base.velocities, next.velocities, after.velocities, MovingVelocity(was),
              MovingVelocity(way), apart.velocities);
    SnapShows(shown.orientations, base.orientations, next.orientations, after.orientations, Turning(slerp, was),
              Turning(slerp, way), apart.orientations);
    OverriddenShows(Copied(shown, next), Copied(base, next), after, slerp, way, Settled(apart, next), client, command,
                    predictions);
  }

  lemma {:induction false} BlendedShows(shown: GameState, base: GameState, next: GameState, slerp: Slerp, was: Way,
                                        apart: Aside, baseId: nat, toId: nat, t: real)
    requires StateShows(shown, base, next, slerp, was, apart) && toId > baseId && Under(Way(toId - baseId, t))
    ensures StateShows(Blended(shown, base, next, Factor(baseId, toId, t), slerp), base, next, slerp,
                       Way(toId - baseId, t), Settled(apart, next))
  {
    hide Shows, Blend, VecOnTheWay, Lerp, Factor;
    var f, way := Factor(baseId, toId, t), Way(toId - baseId, t);
    FactorIs(baseId, toId, t);
    forall w, a, b ensures Moving(way)(PositionMix(f)(w, a, b), a, b) {
      LerpMoves(a, b, baseId, toId, t);
    }
    forall w, a, b ensures MovingVelocity(way)(VelocityMix(f)(w, a, b), a, b) {
      LerpMoves(a.linear, b.linear, baseId, toId, t);
      LerpMoves(a.angular, b.angular, baseId, toId, t);
    }
    forall w, a, b ensures Turning(slerp, way)(OrientationMix(slerp, f)(w, a, b), a, b) {
      assert OrientationMix(slerp, f)(w, a, b).value == slerp(a.value, b.value, f);
    }
    BlendShows(shown.positions, base.positions, next.positions, Moving(was), Moving(way), {}, PositionMix(f), ORIGIN);
    assert {} - next.positions.Keys == {};
    BlendShows(shown.velocities, base.velocities, next.velocities, MovingVelocity(was), MovingVelocity(way),
               apart.velocities, VelocityMix(f), AT_REST);
    BlendShows(shown.orientations, base.orientations, next.orientations, Turning(slerp, was), Turning(slerp, way),
               apart.orientations, OrientationMix(slerp, f), UPRIGHT);
  }

  lemma {:induction false} ReceivedBetween(s: Queue, st: GameState, slerp: Slerp, apart: Aside)
    requires |s.ring| == RING && Between(s, slerp, apart)
    ensures Between(Received(s, st), slerp, apart)
  {
    hide Shows, Moving, MovingVelocity, Turning;
    var r := Received(s, st);
    assert r.base == s.base && r.interpolated == s.interpolated && r.accumulator == s.accumulator;
    if s.pending == [] {
      var was, way := WayOf(s), WayOf(r);
      AllStart(slerp, way);
      FirstArrives(s.interpolated.positions, s.base.positions, Next(r).positions, Moving(was), Moving(way), {});
      FirstArrives(s.interpolated.velocities, s.base.velocities, Next(r).velocities, MovingVelocity(was),
                   MovingVelocity(way), apart.velocities);
      FirstArrives(s.interpolated.orientations, s.base.orientations, Next(r).orientations, Turning(slerp, was),
                   Turning(slerp, way), apart.orientations);
    } else {
      assert Next(r) == Next(s) && WayOf(r) == WayOf(s);
    }
  }

  lemma {:induction false} TickedBetween(s: Queue, delta: real, slerp: Slerp, apart: Aside)
    requires Inv(s) && delta >= 0.0 && Between(s, slerp, apart)
    ensures Between(Ticked(s, delta, slerp), slerp, Apart(s, apart, Tick(delta, slerp)))
  {
    hide StateShows, Snapped, Blended, Monotone, Kept, RingHolds, Factor;
    var r := Ticked(s, delta, slerp);
    if s.pending != [] {
      var acc, to := s.accumulator + delta, s.pending[0];
      if acc >= RATE {
        SnappedShows(s.interpolated, s.base, to, Next(r), slerp, WayOf(s), WayOf(r), apart, s.clientId, s.commandId,
                     s.predictions);
        SameTables(r.interpolated, Snapped(s.base, to, s.clientId, s.commandId, s.predictions), r.base, Next(r), slerp,
                   WayOf(r), Settled(apart, to));
      } else {
        GapAhead(s);
        FactorSign(s, delta);
        if acc > 0.0 {
          BlendedShows(s.interpolated, s.base, to, slerp, WayOf(s), apart, s.base.id, to.id, acc);
          assert WayOf(r) == Way(to.id - s.base.id, acc);
        } else {
          NothingYet(s, delta);
        }
      }
    }
  }

  lemma {:induction false} GapAhead(s: Queue)
    requires Inv(s) && s.pending != []
    ensures s.pending[0].id > s.base.id
  {
    hide Monotone, Kept, RingHolds, TimeKept;
  }

  lemma {:induction false} NothingYet(s: Queue, delta: real)
    requires Inv(s) && delta >= 0.0 && s.accumulator + delta <= 0.0
    ensures s.accumulator == 0.0 && delta == 0.0
  {
    hide Monotone, Kept, RingHolds;
  }

  /** The factor is zero exactly if no time has accumulated. */
  lemma {:induction false} FactorSign(s: Queue, delta: real)
    requires Inv(s) && s.pending != [] && delta >= 0.0
    ensures Factor(s.base.id, s.pending[0].id, s.accumulator + delta) > 0.0 <==> s.accumulator + delta > 0.0
  {
    hide Monotone, Kept, RingHolds;
    var acc, d := s.accumulator + delta, RATE * ((s.pending[0].id - s.base.id) as real);
    if acc > 0.0 {
      Positive(acc, d);
    } else {
      assert acc == 0.0 && acc / d == 0.0;
    }
  }

  lemma {:induction false} SameTables(shown: GameState, base: GameState, base': GameState, next: GameState,
                                      slerp: Slerp, way: Way, apart: Aside)
    requires StateShows(shown, base, next, slerp, way, apart)
    requires base'.positions == base.positions && base'.velocities == base.velocities
    requires base'.orientations == base.orientations
    ensures StateShows(shown, base', next, slerp, way, apart)
  {
  }

  /** The run's slerp. */
  ghost predicate Uses(e: Event, slerp: Slerp) {
    e.Tick? ==> e.slerp == slerp
  }

  /** Every step keeps what is shown between base and next state. */
  lemma {:induction false} StepBetween(s: Queue, e: Event, slerp: Slerp, apart: Aside)
    requires Inv(s) && Allowed(e) && Uses(e, slerp) && Between(s, slerp, apart)
    ensures Between(Step(s, e), slerp, Apart(s, apart, e))
  {
    hide Inv, StateShows, Received, Ticked, WithAll, Without;
    match e {
      case Receive(st) =>
        assert |s.ring| == RING by { RingOf(s); }
        ReceivedBetween(s, st, slerp, apart);
      case Tick(delta, _) => TickedBetween(s, delta, slerp, apart);
      case Create(k, cs) => WithShows(s.interpolated, s.base, Next(s), slerp, WayOf(s), apart, k, cs);
      case Destroy(k) => WithoutShows(s.interpolated, s.base, Next(s), slerp, WayOf(s), apart, k);
      case Steer(k, turned, o, linear) => SteeredShows(s, k, turned, o, linear, slerp, apart);
      case _ =>
    }
  }

  lemma {:induction false} RingOf(s: Queue)
    requires Inv(s)
    ensures |s.ring| == RING
  {
    RingSize(s);
  }

  lemma {:induction false} SteeredShows(s: Queue, e: nat, turned: bool, o: Orientation, linear: Vec, slerp: Slerp,
                                        apart: Aside)
    requires Between(s, slerp, apart)
    ensures Between(Steered(s, e, turned, o, linear), slerp, Apart(s, apart, Steer(e, turned, o, linear)))
  {
    hide Shows;
    var i, b, next, way := s.interpolated, s.base, Next(s), WayOf(s);
    var w := Velocity(linear, At(i.velocities, e, AT_REST).angular);
    PutApart(i.velocities, b.velocities, next.velocities, MovingVelocity(way), apart.velocities, e, w);
    PutApart(i.orientations, b.orientations, next.orientations, Turning(slerp, way), apart.orientations, e, o);
  }

  // ---------------------------------------------------------------- every run

  /** What is apart after a run of events. */
  function ApartAfter(s: Queue, apart: Aside, es: seq<Event>): (r: Aside)
    requires Inv(s) && forall i :: 0 <= i < |es| ==> Allowed(es[i])
    decreases |es|
  {
    hide Inv, Step, Apart;
    if es == [] then apart
    else
      StepInv(s, es[0]);
      ApartAfter(Step(s, es[0]), Apart(s, apart, es[0]), es[1..])
  }

  lemma {:induction false} RunBetween(s: Queue, slerp: Slerp, apart: Aside, es: seq<Event>)
    requires Inv(s) && Between(s, slerp, apart)
    requires forall i :: 0 <= i < |es| ==> Allowed(es[i]) && Uses(es[i], slerp)
    ensures Between(Run(s, es), slerp, ApartAfter(s, apart, es))
    decreases |es|
  {
    hide Inv, Step, Between, Apart;
    if es != [] {
      StepInv(s, es[0]);
      StepBetween(s, es[0], slerp, apart);
      RunBetween(Step(s, es[0]), slerp, Apart(s, apart, es[0]), es[1..]);
    }
  }

  /** In every state reached from the start, every entity is shown where it should be. */
  lemma {:induction false} AlwaysBetween(stats: Stats, slerp: Slerp, es: seq<Event>)
    requires forall i :: 0 <= i < |es| ==> Allowed(es[i]) && Uses(es[i], slerp)
    ensures Inv(Init(stats)) && Between(Run(Init(stats), es), slerp, ApartAfter(Init(stats), Aside({}, {}), es))
  {
    hide Run, ApartAfter, Inv;
    InitInv(stats);
    RunBetween(Init(stats), slerp, Aside({}, {}), es);
  }

  /**
   A tick that does not pop leaves the base and the pending states alone. It shows every entity that both states have
   between the two, and leaves those that the next state does not have. If any time has accumulated it shows what
   only the next state has as it is there, and takes over from the controller what the next state has.
   */
  lemma {:induction false} TickBetween(s: Queue, delta: real, slerp: Slerp, apart: Aside, k: nat)
    requires Inv(s) && Between(s, slerp, apart) && delta >= 0.0 && s.pending != [] && s.accumulator + delta < RATE
    ensures var r, b, to := Ticked(s, delta, slerp), s.base, s.pending[0];
            var was, shown := s.interpolated, r.interpolated;
            var moved := s.accumulator + delta > 0.0;
            && r.base == b && r.pending == s.pending && r.popped == s.popped && (!moved ==> shown == was)
            && (k in b.positions && k in to.positions ==>
                  k in shown.positions && VecBetween(shown.positions[k], b.positions[k], to.positions[k]))
            && (moved && k in to.positions && k !in b.positions ==>
                  k in shown.positions && shown.positions[k] == to.positions[k])
            && (k in b.positions && k !in to.positions ==>
                  k in shown.positions && shown.positions[k] == b.positions[k])
            && (k in b.velocities && k in to.velocities && (moved || k !in apart.velocities) ==>
                  k in shown.velocities && VelocityBetween(shown.velocities[k], b.velocities[k], to.velocities[k]))
            && (moved && k in to.velocities && k !in b.velocities ==>
                  k in shown.velocities && shown.velocities[k] == to.velocities[k])
            && (k in b.velocities && k !in to.velocities && k !in apart.velocities ==>
                  k in shown.velocities && shown.velocities[k] == b.velocities[k])
            && (k in b.orientations && k in to.orientations && (moved || k !in apart.orientations) ==>
                  k in shown.orientations
                  && TurnedBetween(slerp, WayOf(r), shown.orientations[k].value, b.orientations[k].value,
                                   to.orientations[k].value))
            && (moved && k in to.orientations && k !in b.orientations ==>
                  k in shown.orientations && shown.orientations[k] == to.orientations[k])
            && (k in b.orientations && k !in to.orientations && k !in apart.orientations ==>
                  k in shown.orientations && shown.orientations[k] == b.orientations[k])
  {
    hide Monotone, RingHolds, Kept, VecBetween, Moved, TurnedBetween, BlendAt, Factor;
    var r, b, to := Ticked(s, delta, slerp), s.base, s.pending[0];
    var way := WayOf(r);
    FactorSign(s, delta);
    TickedBetween(s, delta, slerp, apart);
    var left := Apart(s, apart, Tick(delta, slerp));
    assert ShownAt(r.interpolated.positions, b.positions, to.positions, Moving(way), k);
    if k in b.positions && k in to.positions {
      MovedBetween(way, r.interpolated.positions[k], b.positions[k], to.positions[k]);
    }
    if k !in left.velocities {
      assert ShownAt(r.interpolated.velocities, b.velocities, to.velocities, MovingVelocity(way), k);
      if k in b.velocities && k in to.velocities {
        VelocityMoves(way, r.interpolated.velocities[k], b.velocities[k], to.velocities[k]);
      }
    }
    if k !in left.orientations {
      assert ShownAt(r.interpolated.orientations, b.orientations, to.orientations, Turning(slerp, way), k);
    }
    if s.accumulator + delta > 0.0 {
      OnlyNext(s, delta, slerp, k);
    }
  }

  /** What only the next state has, once time has accumulated. */
  lemma {:induction false} OnlyNext(s: Queue, delta: real, slerp: Slerp, k: nat)
    requires Inv(s) && delta >= 0.0 && s.pending != [] && 0.0 < s.accumulator + delta < RATE
    ensures var shown, b, to := Ticked(s, delta, slerp).interpolated, s.base, s.pending[0];
            && (k in to.positions && k !in b.positions ==>
                  k in shown.positions && shown.positions[k] == to.positions[k])
            && (k in to.velocities && k !in b.velocities ==>
                  k in shown.velocities && shown.velocities[k] == to.velocities[k])
            && (k in to.orientations && k !in b.orientations ==>
                  k in shown.orientations && shown.orientations[k] == to.orientations[k])
  {
    hide Monotone, RingHolds, Kept, Factor;
    FactorSign(s, delta);
  }

  lemma {:induction false} VelocityMoves(w: Way, v: Velocity, a: Velocity, b: Velocity)
    requires MovingVelocity(w)(v, a, b)
    ensures VelocityBetween(v, a, b)
  {
    hide Moved;
    if v == a {
      SameBetween(a.linear, b.linear);
      SameBetween(a.angular, b.angular);
    } else {
      MovedBetween(w, v.linear, a.linear, b.linear);
      MovedBetween(w, v.angular, a.angular, b.angular);
    }
  }

  lemma {:induction false} SameBetween(a: Vec, b: Vec)
    ensures VecBetween(a, a, b)
  {
  }

  /**
   After a tick that does not pop and finds time accumulated, what both states have is as far from the base towards the
   next state as the accumulated time is to the time between them, at eight states a second: positions, both parts of
   velocities, and, by slerp of that same fraction, orientations.
   */
  lemma {:induction false} TickMoves(s: Queue, delta: real, slerp: Slerp, k: nat) returns (f: real)
    requires Inv(s) && delta >= 0.0 && s.pending != [] && 0.0 < s.accumulator + delta < 0.125
    ensures var r, b, to := Ticked(s, delta, slerp), s.base, s.pending[0];
            var gap, t := to.id - b.id, s.accumulator + delta;
            && gap > 0 && r.accumulator == t && f * (gap as real) == 8.0 * t
            && (k in b.positions && k in to.positions ==>
                  && k in r.interpolated.positions
                  && VecOnTheWay(b.positions[k], to.positions[k], gap, t, r.interpolated.positions[k]))
            && (k in b.velocities && k in to.velocities ==>
                  && k in r.interpolated.velocities
                  && var v, a, c := r.interpolated.velocities[k], b.velocities[k], to.velocities[k];
                     VecOnTheWay(a.linear, c.linear, gap, t, v.linear)
                     && VecOnTheWay(a.angular, c.angular, gap, t, v.angular))
            && (k in b.orientations && k in to.orientations ==>
                  && k in r.interpolated.orientations
                  && r.interpolated.orientations[k].value
                     == slerp(b.orientations[k].value, to.orientations[k].value, f)
                  && r.interpolated.orientations[k].rotation
                     == if k in s.interpolated.orientations then s.interpolated.orientations[k].rotation
                        else Vec(0.0, 0.0, 0.0))
  {
    hide Monotone, Kept, RingHolds, Lerp, Factor, VecOnTheWay;
    var b, to, t := s.base, s.pending[0], s.accumulator + delta;
    f := Factor(b.id, to.id, t);
    FactorIs(b.id, to.id, t);
    FactorSign(s, delta);
    if k in b.positions && k in to.positions {
      LerpMoves(b.positions[k], to.positions[k], b.id, to.id, t);
    }
    if k in b.velocities && k in to.velocities {
      LerpMoves(b.velocities[k].linear, to.velocities[k].linear, b.id, to.id, t);
      LerpMoves(b.velocities[k].angular, to.velocities[k].angular, b.id, to.id, t);
    }
  }
}

// Particles and the system that owns them (Particle.py, ParticleSystem.py).
// The system keeps its live particles in a list that it changes in place; a
// particle removes itself through its system when it expires. The system's
// update walks the list by position while particles drop out of it, exactly as
// a Python `for` loop over a list does.
module Particles {
  import opened World
  import opened Wrappers
  import opened ParticleCycle

  /** Particle kinds, which index PARTICLE_IMAGES. */
  const BULLET := 0
  const FLASH := 1

  const PARTICLE_IMAGES: seq<string> := [
    "./img/particles/space_bullet.png",
    "./img/particles/flash.png"
  ]

  /** One sprite blit: image index, position and rotation. */
  datatype Sprite = Sprite(image: int, pos: Point, rot: real)

  /** Python `list.remove(x)` after an `x in list` test: drop the first occurrence, if any. */
  function RemoveFirst<T(==)>(s: seq<T>, x: T): (r: seq<T>)
    ensures x !in s ==> r == s
    ensures x in s ==> |r| == |s| - 1 && r == s[..IndexOf(s, x)] + s[IndexOf(s, x) + 1..]
  {
    if x in s then s[..IndexOf(s, x)] + s[IndexOf(s, x) + 1..] else s
  }

  /** The position of the first occurrence of x. */
  function IndexOf<T(==)>(s: seq<T>, x: T): (k: nat)
    requires x in s
    ensures k < |s| && s[k] == x && x !in s[..k]
  {
    if s[0] == x then 0 else IndexOf(s[1..], x) + 1
  }

  /** No element occurs twice. */
  predicate Distinct<T(==)>(s: seq<T>) {
    forall i, j | 0 <= i < j < |s| :: s[i] != s[j]
  }

  /**
   * A Python `for` loop over list s from position i, where visiting an
   * element of `dead` removes that element's first occurrence from the list
   * before the loop moves to position i + 1. Gives the elements visited, in
   * order, and the list at the end.
   */
  function Sweep<T(==)>(s: seq<T>, i: nat, dead: set<T>): (seq<T>, seq<T>)
    decreases |s| - i
  {
    if i >= |s| then ([], s)
    else
      var next := if s[i] in dead then RemoveFirst(s, s[i]) else s;
      var rest := Sweep(next, i + 1, dead);
      ([s[i]] + rest.0, rest.1)
  }

  /** The elements of s outside `dead`, in order. */
  function Without<T(==)>(s: seq<T>, dead: set<T>): (r: seq<T>)
    ensures |r| <= |s|
  {
    if s == [] then []
    else Without(s[..|s| - 1], dead) + (if s[|s| - 1] in dead then [] else [s[|s| - 1]])
  }

  /** A counter shared by all particles, standing for the class-level `particleIdCounter`. */
  class IdCounter {
    var last: int

    constructor ()
      ensures last == 0
    {
      last := 0;
    }
  }

  class Particle {
    const id: int
    /** The system this particle removes itself from. */
    const system: ParticleSystem
    /** Sprite index into PARTICLE_IMAGES. */
    const image: int
    var pos: Point
    var rot: real
    var speed: real
    /** Number of cycles to live; 0 means endless. */
    const cycleCount: int
    const cycleLengthInMS: int
    const customUpdate: Option<CustomUpdate>
    /** Clock reading (milliseconds) when the particle was made. */
    const timeAtCreation: int

    /** A new particle takes the next id from the shared counter; `now` is the clock reading. */
    constructor (ids: IdCounter, system: ParticleSystem, image: int, now: int,
                 initialX: real := 0.0, initialY: real := 0.0, initialRot: real := 0.0,
                 initialSpeed: real := DEFAULT_SPEED, cycleCount: int := DEFAULT_CYCLE_COUNT,
                 cycleLengthInMS: int := DEFAULT_CYCLE_LENGTH_MS,
                 customUpdate: Option<CustomUpdate> := None)
      modifies ids
      ensures ids.last == old(ids.last) + 1 && id == ids.last
      ensures this.system == system && this.image == image && timeAtCreation == now
      ensures pos == Point(initialX, initialY) && rot == initialRot && speed == initialSpeed
      ensures this.cycleCount == cycleCount && this.cycleLengthInMS == cycleLengthInMS
      ensures this.customUpdate == customUpdate
    {
      ids.last := ids.last + 1;
      id := ids.last;
      this.system := system;
      this.image := image;
      pos := Point(initialX, initialY);
      rot := initialRot;
      speed := initialSpeed;
      this.cycleCount := cycleCount;
      this.cycleLengthInMS := cycleLengthInMS;
      this.customUpdate := customUpdate;
      timeAtCreation := now;
    }

    /** The particle's age has passed its cycle budget at clock reading `now`. */
    predicate Expires(now: int)
      requires cycleLengthInMS != 0
    {
      Expired(cycleCount, cycleLengthInMS, now - timeAtCreation)
    }

    /** What `update` at clock reading `now` does. */
    function TickAt(now: int): Tick
      requires cycleLengthInMS != 0
    {
      Decide(cycleCount, cycleLengthInMS, now - timeAtCreation, customUpdate)
    }

    /** Where one `update` at clock reading `now` leaves a particle that was at `start`. */
    function PosAfterTick(now: int, start: Point, polar: Polar): Point
      requires cycleLengthInMS != 0
      reads this`rot, this`speed
    {
      if TickAt(now) == Advance then MoveByAngleAndMagnitude(start, rot, speed, polar) else start
    }

    /** The blit `draw` makes. */
    function CurrentSprite(): (sp: Sprite)
      reads this`pos, this`rot
      ensures sp.image == image && sp.pos == pos && sp.rot == rot
    {
      Sprite(image, pos, rot)
    }

    /** Asks the owning system to remove this particle. */
    method Kill()
      modifies system`particles
      ensures system.particles == RemoveFirst(old(system.particles), this)
    {
      system.KillParticle(this);
    }

    /**
     * One frame: expire and remove itself, or run the custom update and then,
     * unless it answered False, take the default step along the heading.
     */
    method Update(now: int, polar: Polar)
      requires cycleLengthInMS != 0
      modifies this`pos, system`particles
      ensures system.particles ==
                if Expires(now) then RemoveFirst(old(system.particles), this) else old(system.particles)
      ensures pos == if TickAt(now) == Advance then MoveByAngleAndMagnitude(old(pos), rot, speed, polar) else old(pos)
    {
      var deltaTime := now - timeAtCreation;
      var currentCycleNumber := CycleNumber(deltaTime, cycleLengthInMS);
      if cycleCount != 0 && currentCycleNumber > cycleCount {
        Kill();
        return;
      }
      var currentCycleTime := CycleTime(deltaTime, cycleLengthInMS);
      var normalised := currentCycleTime as real / cycleLengthInMS as real;
      if customUpdate.Some? {
        var updateResult := customUpdate.value(normalised, currentCycleTime, currentCycleNumber);
        if EqualsFalse(updateResult) {
          return;
        }
      }
      pos := MoveByAngleAndMagnitude(pos, rot, speed, polar);
    }
  }

  /** The particles in ps that expire at clock reading `now`. */
  ghost function Doomed(ps: seq<Particle>, now: int): set<Particle>
    requires forall p | p in ps :: p.cycleLengthInMS != 0
  {
    set p | p in ps && p.Expires(now)
  }

  class ParticleSystem {
    /** Live particles, in spawn order. */
    var particles: seq<Particle>

    constructor ()
      ensures particles == []
    {
      particles := [];
    }

    /** Removes the particle's first occurrence; a particle not in the list is ignored. */
    method KillParticle(p: Particle)
      modifies this`particles
      ensures particles == RemoveFirst(old(particles), p)
    {
      if p in particles {
        particles := RemoveFirst(particles, p);
      }
    }

    /**
     * Updates the particles by position in the list. A particle that expires
     * removes itself, so the one after it slides into its slot and is not
     * updated this frame.
     */
    method Update(now: int, polar: Polar) returns (visited: seq<Particle>)
      requires forall p | p in particles :: p.system == this && p.cycleLengthInMS != 0
      modifies this`particles, set p | p in particles :: p`pos
      ensures visited == Sweep(old(particles), 0, Doomed(old(particles), now)).0
      ensures particles == Sweep(old(particles), 0, Doomed(old(particles), now)).1
    {
      ghost var dead := Doomed(particles, now);
      ghost var all := particles;
      visited := [];
      var i := 0;
      while i < |particles|
        invariant all == old(particles)
        invariant forall p | p in particles :: p in all
        invariant Sweep(all, 0, dead).0 == visited + Sweep(particles, i, dead).0
        invariant Sweep(all, 0, dead).1 == Sweep(particles, i, dead).1
      {
        var p := particles[i];
        ghost var before := particles;
        assert p in all && p.system == this;
        p.Update(now, polar);
        assert p in dead <==> p.Expires(now);
        SweepStep(before, i, dead, particles, visited, Sweep(all, 0, dead).0);
        visited := visited + [p];
        i := i + 1;
      }
    }

    /**
     * The evident intent of `update`: every particle that was live at the
     * start of the frame is updated once, in order, by walking a snapshot of
     * the list instead of the list being changed.
     */
    method UpdateAll(now: int, polar: Polar) returns (visited: seq<Particle>)
      requires forall p | p in particles :: p.system == this && p.cycleLengthInMS != 0
      modifies this`particles, set p | p in particles :: p`pos
      ensures visited == old(particles)
      ensures particles == Without(old(particles), Doomed(old(particles), now))
      ensures Distinct(old(particles)) ==>
                forall j | 0 <= j < |old(particles)| ::
                  old(particles)[j].pos == old(particles)[j].PosAfterTick(now, old(particles[j].pos), polar)
    {
      ghost var dead := Doomed(particles, now);
      var snapshot := particles;
      ghost var start := Positions(snapshot);
      visited := [];
      var k := 0;
      while k < |snapshot|
        invariant snapshot == old(particles)
        invariant k <= |snapshot| && visited == snapshot[..k]
        invariant particles == Pending(snapshot, k, dead)
        invariant Distinct(snapshot) ==> Walked(snapshot, k, start, now, polar)
      {
        assert snapshot[k] in old(particles);
        UpdateNext(snapshot, k, now, polar, dead, start);
        SliceSnoc(snapshot, k);
        visited := visited + [snapshot[k]];
        k := k + 1;
      }
      assert snapshot[..k] == snapshot && snapshot[k..] == [];
    }

    /**
     * One step of the snapshot walk: updates the k-th particle of the
     * snapshot, which removes itself from the live list when it expires and
     * otherwise may move; no other particle moves.
     */
    method UpdateNext(snapshot: seq<Particle>, k: nat, now: int, polar: Polar,
                      ghost dead: set<Particle>, ghost start: seq<Point>)
      requires k < |snapshot| && |start| == |snapshot|
      requires forall p | p in snapshot :: p.system == this && p.cycleLengthInMS != 0
      requires dead == Doomed(snapshot, now)
      requires particles == Pending(snapshot, k, dead)
      requires Distinct(snapshot) ==> Walked(snapshot, k, start, now, polar)
      modifies this`particles, (snapshot[k] as Particle)`pos
      ensures particles == Pending(snapshot, k + 1, dead)
      ensures Distinct(snapshot) ==> Walked(snapshot, k + 1, start, now, polar)
    {
      var p := snapshot[k];
      SnapshotStep(snapshot, k, dead);
      p.Update(now, polar);
      assert p in dead <==> p.Expires(now);
      DistinctApart(snapshot, k);
    }

    /** Draws every particle once, in list order (later spawns on top). */
    method Draw() returns (sprites: seq<Sprite>)
      ensures |sprites| == |particles|
      ensures forall k | 0 <= k < |sprites| :: sprites[k] == particles[k].CurrentSprite()
    {
      sprites := [];
      for k := 0 to |particles|
        invariant |sprites| == k
        invariant forall j | 0 <= j < k :: sprites[j] == particles[j].CurrentSprite()
      {
        sprites := sprites + [particles[k].CurrentSprite()];
      }
    }
  }

  /** Removing an absent particle changes nothing, so a second kill is a no-op on a duplicate-free list. */
  lemma KillTwiceIsKillOnce<T>(s: seq<T>, x: T)
    requires Distinct(s)
    ensures x !in RemoveFirst(s, x)
    ensures RemoveFirst(RemoveFirst(s, x), x) == RemoveFirst(s, x)
  {
    if x in s {
      var k := IndexOf(s, x);
      var r := RemoveFirst(s, x);
      forall j | 0 <= j < |r|
        ensures r[j] != x
      {
        if j >= k {
          assert r[j] == s[j + 1] && s[k] == x;
        }
      }
    }
  }

  /** One step of the walk at position i, seen from the list after that step. */
  lemma SweepStep<T>(before: seq<T>, i: nat, dead: set<T>, after: seq<T>, visited: seq<T>, total: seq<T>)
    requires i < |before|
    requires after == if before[i] in dead then RemoveFirst(before, before[i]) else before
    requires total == visited + Sweep(before, i, dead).0
    ensures total == (visited + [before[i]]) + Sweep(after, i + 1, dead).0
    ensures Sweep(before, i, dead).1 == Sweep(after, i + 1, dead).1
    ensures forall x | x in after :: x in before
  {
    var rest := Sweep(after, i + 1, dead);
    assert Sweep(before, i, dead) == ([before[i]] + rest.0, rest.1);
    assert visited + ([before[i]] + rest.0) == (visited + [before[i]]) + rest.0;
    RemoveFirstKeeps(before, before[i]);
  }

  /** Removal only drops elements. */
  lemma RemoveFirstKeeps<T>(s: seq<T>, y: T)
    ensures forall x | x in RemoveFirst(s, y) :: x in s
  {
  }

  /** With nothing removed, the loop visits every element once, in order, and the list stays as it was. */
  lemma {:induction false} SweepWithoutRemovals<T>(s: seq<T>, i: nat, dead: set<T>)
    requires i <= |s|
    requires forall x | x in s :: x !in dead
    ensures Sweep(s, i, dead) == (s[i..], s)
    decreases |s| - i
  {
    if i < |s| {
      SweepWithoutRemovals(s, i + 1, dead);
      assert s[i..] == [s[i]] + s[i + 1..];
    }
  }

  /** The survivors are exactly the elements outside `dead`. */
  lemma {:induction false} WithoutMembers<T>(s: seq<T>, dead: set<T>, x: T)
    ensures x in Without(s, dead) <==> x in s && x !in dead
  {
    if s != [] {
      var init := s[..|s| - 1];
      WithoutMembers(init, dead, x);
      assert s == init + [s[|s| - 1]];
    }
  }

  /** When x is absent from a and heads b, its first occurrence in a + b is the head of b. */
  lemma RemoveFirstAfterPrefix<T>(a: seq<T>, b: seq<T>, x: T)
    requires x !in a && b != [] && b[0] == x
    ensures RemoveFirst(a + b, x) == a + b[1..]
  {
    var s := a + b;
    assert s[|a|] == x;
    var k := IndexOf(s, x);
    assert forall i | 0 <= i < |a| :: s[i] == a[i];
    assert k == |a|;
    assert s[..k] == a && s[k + 1..] == b[1..];
  }

  /**
   * Partway through a frame: the first k particles of the snapshot have
   * taken their tick from where they stood at the start of the frame
   * (`start`), and the rest have not moved yet.
   */
  ghost predicate Walked(snapshot: seq<Particle>, k: nat, start: seq<Point>, now: int, polar: Polar)
    requires k <= |snapshot| == |start|
    requires forall p | p in snapshot :: p.cycleLengthInMS != 0
    reads set p | p in snapshot
  {
    (forall j | 0 <= j < k :: snapshot[j].pos == snapshot[j].PosAfterTick(now, start[j], polar)) &&
    (forall j | k <= j < |snapshot| :: snapshot[j].pos == start[j])
  }

  /** Where each particle of ps stands. */
  ghost function Positions(ps: seq<Particle>): (r: seq<Point>)
    reads set p | p in ps
    ensures |r| == |ps| && forall j | 0 <= j < |ps| :: r[j] == ps[j].pos
  {
    if ps == [] then [] else Positions(ps[..|ps| - 1]) + [ps[|ps| - 1].pos]
  }

  /** In a list without repeats, every other position holds a different element. */
  lemma DistinctApart<T>(s: seq<T>, k: nat)
    requires k < |s|
    ensures Distinct(s) ==> forall j | 0 <= j < |s| && j != k :: s[j] != s[k]
  {
  }

  lemma SliceSnoc<T>(s: seq<T>, k: nat)
    requires k < |s|
    ensures s[..k] + [s[k]] == s[..k + 1]
  {
  }

  /** The list partway through a walk over snapshot s: the survivors of s[..k], then the unvisited s[k..]. */
  function Pending<T(==)>(s: seq<T>, k: nat, dead: set<T>): seq<T>
    requires k <= |s|
  {
    Without(s[..k], dead) + s[k..]
  }

  /** One step of the snapshot walk: updating s[k] turns Pending(s, k) into Pending(s, k + 1). */
  lemma SnapshotStep<T>(s: seq<T>, k: nat, dead: set<T>)
    requires k < |s|
    ensures s[k] in dead ==> RemoveFirst(Pending(s, k, dead), s[k]) == Pending(s, k + 1, dead)
    ensures s[k] !in dead ==> Pending(s, k, dead) == Pending(s, k + 1, dead)
  {
    var survivors := Without(s[..k], dead);
    assert s[..k + 1][..k] == s[..k];
    assert s[k..] == [s[k]] + s[k + 1..];
    if s[k] in dead {
      WithoutMembers(s[..k], dead, s[k]);
      RemoveFirstAfterPrefix(survivors, s[k..], s[k]);
    } else {
      assert survivors + s[k..] == (survivors + [s[k]]) + s[k + 1..];
    }
  }

  /** Dropping the first occurrence of x shifts every later element one slot left. */
  lemma RemoveFirstShifts<T>(s: seq<T>, x: T, j: nat)
    requires x in s && IndexOf(s, x) <= j < |s|
    ensures RemoveFirst(s, x)[j..] == s[j + 1..]
  {
  }

  /** Everything the loop visits from position i on was at position i or later. */
  lemma {:induction false} SweepVisitsFromIndex<T>(s: seq<T>, i: nat, dead: set<T>)
    ensures forall x | x in Sweep(s, i, dead).0 :: x in s[i..]
    decreases |s| - i
  {
    if i < |s| {
      var next := if s[i] in dead then RemoveFirst(s, s[i]) else s;
      SweepVisitsFromIndex(next, i + 1, dead);
      if s[i] in dead && i + 1 <= |next| {
        if i + 1 < |s| {
          RemoveFirstShifts(s, s[i], i + 1);
        }
        assert forall x | x in next[i + 1..] :: x in s[i..];
      }
    }
  }

  /**
   * In a duplicate-free list, when the element at position i removes itself,
   * the element after it is skipped: it is never visited from there on.
   */
  lemma SweepSkipsSuccessor<T>(s: seq<T>, i: nat, dead: set<T>)
    requires Distinct(s) && i + 1 < |s| && s[i] in dead
    ensures s[i + 1] !in Sweep(s, i, dead).0
  {
    var tail := s[i + 2..];
    assert forall k | 0 <= k < |tail| :: tail[k] == s[i + 2 + k] != s[i + 1];
    SkipsUnlessRepeated(s, i, dead);
  }

  /** The successor of a removed element is skipped unless it occurs again further on. */
  lemma SkipsUnlessRepeated<T>(s: seq<T>, i: nat, dead: set<T>)
    requires i + 1 < |s| && s[i] in dead && IndexOf(s, s[i]) == i
    requires s[i] != s[i + 1] && s[i + 1] !in s[i + 2..]
    ensures s[i + 1] !in Sweep(s, i, dead).0
  {
    var next := RemoveFirst(s, s[i]);
    RemoveFirstShifts(s, s[i], i + 1);
    SweepVisitsFromIndex(next, i + 1, dead);
    assert Sweep(s, i, dead).0 == [s[i]] + Sweep(next, i + 1, dead).0;
  }

  /**
   * Two particles a, b where a expires: the walk by position updates only a,
   * so b misses its update; both walks leave [b] as the list.
   */
  lemma SkipExample<T>(a: T, b: T)
    requires a != b
    ensures Sweep([a, b], 0, {a}) == ([a], [b])
    ensures Without([a, b], {a}) == [b]
  {
    var s := [a, b];
    assert s[0] == a && a in {a};
    assert RemoveFirst(s, a) == [b];
    assert Sweep([b], 1, {a}) == ([], [b]);
    assert Sweep(s, 0, {a}) == ([a] + Sweep([b], 1, {a}).0, Sweep([b], 1, {a}).1);
    assert [a] + Sweep([b], 1, {a}).0 == [a];
    assert s[..1] == [a] && s[..0] == [];
  }
}

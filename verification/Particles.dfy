// The particle ring of src/particle.cpp over the reals, refined to the history of
// spawns and updates.
module Particles {
  import opened Math3d
  import opened Grid
  import opened Canvas

  const MAX_PARTICLES: nat := 128

  // An int whose decrement is defined.
  type Lifespan = n: int | -0x8000_0000 < n < 0x8000_0000

  datatype Particle = Particle(active: bool, position: Vec3, velocity: Vec3, color: nat, lifetimeTicks: int)

  datatype Spawn = Spawn(pos: Vec3, vel: Vec3, color: nat, lifespan: Lifespan)

  datatype Event = Spawned(s: Spawn) | Updated

  function Along(p: real, v: real, t: int): real {
    p + t as real * v
  }

  // p moved t times by v.
  function Moved(p: Vec3, v: Vec3, t: int): Vec3 {
    Vec3(Along(p.x, v.x, t), Along(p.y, v.y, t), Along(p.z, v.z, t))
  }

  // ---- What a history says ----

  function Spawns(h: seq<Event>): nat {
    if h == [] then 0 else Spawns(h[..|h| - 1]) + if h[|h| - 1].Spawned? then 1 else 0
  }

  // Whether slot was ever spawned into.
  predicate EverFilled(h: seq<Event>, slot: nat) {
    h != [] && (EverFilled(h[..|h| - 1], slot) || Fills(h, slot))
  }

  // The last event of h is a spawn whose index is congruent to slot modulo 128.
  predicate Fills(h: seq<Event>, slot: nat)
    requires h != []
  {
    h[|h| - 1].Spawned? && Spawns(h[..|h| - 1]) % MAX_PARTICLES == slot
  }

  // The most recent spawn into slot, and the updates since.
  function Latest(h: seq<Event>, slot: nat): Spawn
    requires EverFilled(h, slot)
  {
    if Fills(h, slot) then h[|h| - 1].s else Latest(h[..|h| - 1], slot)
  }

  function Age(h: seq<Event>, slot: nat): nat
    requires EverFilled(h, slot)
  {
    if Fills(h, slot) then 0 else Age(h[..|h| - 1], slot) + if h[|h| - 1].Updated? then 1 else 0
  }

  function Lifetime(s: Spawn): int {
    if s.lifespan > 1 then s.lifespan else 1
  }

  // A slot is alive for max(lifespan, 1) updates after its latest spawn, and while
  // alive it stands where uniform motion puts it.
  ghost predicate SlotIs(p: Particle, h: seq<Event>, slot: nat) {
    if !EverFilled(h, slot) then !p.active
    else
      var s, t := Latest(h, slot), Age(h, slot);
      && (p.active <==> t < Lifetime(s))
      && (p.active ==>
            && p.position == Moved(s.pos, s.vel, t) && p.velocity == s.vel
            && p.color == s.color && p.lifetimeTicks == s.lifespan - t)
  }

  // One round of update_and_render_particles for one slot.
  function Ticked(p: Particle): Particle {
    if !p.active then p
    else
      var l := p.lifetimeTicks - 1;
      if l <= 0 then p.(lifetimeTicks := l, active := false)
      else p.(lifetimeTicks := l, position := Moved(p.position, p.velocity, 1))
  }

  class ParticleSystem {
    const pool: array<Particle>
    var nextSlot: nat
    ghost var history: seq<Event>

    ghost predicate Valid()
      reads this, pool
    {
      && pool.Length == MAX_PARTICLES
      && nextSlot == Spawns(history) % MAX_PARTICLES
      && forall i :: 0 <= i < MAX_PARTICLES ==> SlotIs(pool[i], history, i)
    }

    // init_particle_system on whatever the pool holds.
    constructor (memory: array<Particle>)
      requires memory.Length == MAX_PARTICLES
      modifies memory
      ensures Valid() && pool == memory && history == []
    {
      pool := memory;
      nextSlot := 0;
      history := [];
      new;
      for i := 0 to MAX_PARTICLES
        invariant nextSlot == 0 && history == []
        invariant forall j :: 0 <= j < i ==> !pool[j].active
      {
        pool[i] := pool[i].(active := false);
        pool[i] := pool[i].(lifetimeTicks := 0);
      }
    }

    // spawn_particle
    method SpawnParticle(s: Spawn)
      requires Valid()
      modifies this, pool
      ensures Valid() && history == old(history) + [Spawned(s)]
    {
      hide SlotIs;
      hide Spawns;
      NextIndex(history, s);
      var slot := nextSlot;
      pool[slot] := Particle(true, s.pos, s.vel, s.color, s.lifespan);
      nextSlot := (nextSlot + 1) % MAX_PARTICLES;
      history := history + [Spawned(s)];
      forall i | 0 <= i < MAX_PARTICLES
        ensures SlotIs(pool[i], history, i)
      {
        SpawnKeepsSlot(old(pool[i]), old(history), s, i);
      }
    }

    // update_and_render_particles
    method UpdateAndRender(buffer: array<nat>)
      requires Valid() && buffer.Length == TOTAL_PIXELS
      modifies this`history, pool, buffer
      ensures Valid() && history == old(history) + [Updated]
      ensures forall x, y :: OnScreen(x, y) ==>
                buffer[Pixel(x, y)] == Topmost(pool[..], x, y, old(buffer[Pixel(x, y)]))
    {
      hide SlotIs;
      hide Covers;
      hide Pixel;
      for i := 0 to MAX_PARTICLES
        invariant history == old(history)
        invariant forall j :: 0 <= j < i ==> pool[j] == Ticked(old(pool[j]))
        invariant forall j :: i <= j < MAX_PARTICLES ==> pool[j] == old(pool[j])
        invariant forall x, y :: OnScreen(x, y) ==>
                    buffer[Pixel(x, y)] == Topmost(pool[..i], x, y, old(buffer[Pixel(x, y)]))
      {
        ghost var done := pool[..i];
        TickSlot(i);
        DrawBlock(buffer, pool[i]);
        assert pool[..i + 1][..i] == done;
      }
      assert pool[..MAX_PARTICLES] == pool[..];
      history := history + [Updated];
      assert history[..|history| - 1] == old(history);
      forall i | 0 <= i < MAX_PARTICLES
        ensures SlotIs(pool[i], history, i)
      {
        TickKeepsSlot(old(pool[i]), old(history), i);
      }
    }

    method TickSlot(i: nat)
      requires i < pool.Length
      modifies pool
      ensures pool[i] == Ticked(old(pool[i])) && forall j :: 0 <= j < pool.Length && j != i ==> pool[j] == old(pool[j])
    {
      if pool[i].active {
        pool[i] := pool[i].(lifetimeTicks := pool[i].lifetimeTicks - 1);
        if pool[i].lifetimeTicks <= 0 {
          pool[i] := pool[i].(active := false);
        } else {
          var p, v := pool[i].position, pool[i].velocity;
          pool[i] := pool[i].(position := Vec3(p.x + v.x, p.y + v.y, p.z + v.z));
        }
      }
    }
  }

  // ---- Drawing ----

  // The upper left pixel of the block a particle is drawn as.
  function ScreenX(p: Vec3): int {
    Trunc(p.y * 40.0 + 400.0)
  }

  function ScreenY(p: Vec3): int {
    Trunc(p.z * 40.0 + 300.0)
  }

  // The projection: the origin is drawn at the centre of the screen, and one unit of
  // y or z is 40 pixels to the right or down.
  lemma Projection(p: Vec3)
    ensures p.y == 0.0 && p.z == 0.0 ==> ScreenX(p) == 400 && ScreenY(p) == 300
    ensures p.y >= -10.0 ==> ScreenX(p.(y := p.y + 1.0)) == ScreenX(p) + 40
    ensures p.z >= -7.5 ==> ScreenY(p.(z := p.z + 1.0)) == ScreenY(p) + 40
    ensures ScreenX(p.(x := 0.0)) == ScreenX(p) && ScreenY(p.(x := 0.0)) == ScreenY(p)
  {
  }

  // An active particle whose 2 x 2 block lies on the screen covers those four pixels.
  predicate Covers(p: Particle, x: int, y: int) {
    var px, py := ScreenX(p.position), ScreenY(p.position);
    && p.active && OnScreen(px, py) && OnScreen(px + 1, py + 1)
    && px <= x <= px + 1 && py <= y <= py + 1
  }

  // A particle is drawn as four pixels or, if one of them is off the screen, not at all.
  lemma FourPixels(p: Particle, x: int, y: int)
    ensures var px, py := ScreenX(p.position), ScreenY(p.position);
            Covers(p, x, y) <==> p.active && 0 <= px < 799 && 0 <= py < 599
                                 && (x, y) in {(px, py), (px + 1, py), (px, py + 1), (px + 1, py + 1)}
  {
  }

  // The colour of a pixel once the particles are drawn over it one after the other.
  function Topmost(ps: seq<Particle>, x: int, y: int, background: nat): nat {
    if ps == [] then background
    else if Covers(ps[|ps| - 1], x, y) then ps[|ps| - 1].color
    else Topmost(ps[..|ps| - 1], x, y, background)
  }

  // If no particle from slot k on covers a pixel, it shows the one before k if that
  // covers it; and what was there before if k is 0.
  lemma {:induction false} TopmostIs(ps: seq<Particle>, k: nat, x: int, y: int, background: nat)
    requires k <= |ps| && forall j :: k <= j < |ps| ==> !Covers(ps[j], x, y)
    ensures k == 0 ==> Topmost(ps, x, y, background) == background
    ensures k > 0 && Covers(ps[k - 1], x, y) ==> Topmost(ps, x, y, background) == ps[k - 1].color
  {
    hide Covers;
    if |ps| > k { TopmostIs(ps[..|ps| - 1], k, x, y, background); }
  }

  method DrawBlock(buffer: array<nat>, p: Particle)
    requires buffer.Length == TOTAL_PIXELS
    modifies buffer
    ensures forall x, y :: OnScreen(x, y) ==>
              buffer[Pixel(x, y)] == if Covers(p, x, y) then p.color else old(buffer[Pixel(x, y)])
  {
    var px, py := ScreenX(p.position), ScreenY(p.position);
    if p.active && px >= 0 && px < SCREEN_WIDTH - 1 && py >= 0 && py < SCREEN_HEIGHT - 1 {
      PutPixel(buffer, px, py, p.color);
      PutPixel(buffer, px + 1, py, p.color);
      PutPixel(buffer, px, py + 1, p.color);
      PutPixel(buffer, px + 1, py + 1, p.color);
    }
  }

  lemma AlongAgain(p: real, v: real, t: int)
    ensures Along(Along(p, v, t), v, 1) == Along(p, v, t + 1)
  {
    assert (t + 1) as real * v == t as real * v + v;
  }

  lemma MoveAgain(p: Vec3, v: Vec3, t: int)
    ensures Moved(Moved(p, v, t), v, 1) == Moved(p, v, t + 1)
  {
    hide Along;
    AlongAgain(p.x, v.x, t);
    AlongAgain(p.y, v.y, t);
    AlongAgain(p.z, v.z, t);
  }

  // A spawn refills the slot its index falls on and leaves the others alone.
  lemma SpawnKeepsSlot(p: Particle, h: seq<Event>, s: Spawn, slot: nat)
    requires SlotIs(p, h, slot)
    ensures SlotIs(if Spawns(h) % MAX_PARTICLES == slot then Particle(true, s.pos, s.vel, s.color, s.lifespan) else p,
                   h + [Spawned(s)], slot)
  {
    NotMoved(s.pos, s.vel);
    hide Moved;
    hide Spawns;
    var h' := h + [Spawned(s)];
    assert h'[..|h|] == h;
    assert Fills(h', slot) <==> Spawns(h) % MAX_PARTICLES == slot;
  }

  lemma NotMoved(p: Vec3, v: Vec3)
    ensures Moved(p, v, 0) == p
  {
  }

  lemma NextIndex(h: seq<Event>, s: Spawn)
    ensures Spawns(h + [Spawned(s)]) % MAX_PARTICLES == (Spawns(h) % MAX_PARTICLES + 1) % MAX_PARTICLES
  {
    assert (h + [Spawned(s)])[..|h|] == h;
  }

  lemma TickKeepsSlot(p: Particle, h: seq<Event>, slot: nat)
    requires SlotIs(p, h, slot)
    ensures SlotIs(Ticked(p), h + [Updated], slot)
  {
    hide Moved;
    assert (h + [Updated])[..|h|] == h;
    if EverFilled(h, slot) && p.active {
      MoveAgain(Latest(h, slot).pos, Latest(h, slot).vel, Age(h, slot));
    }
  }

  lemma SameSlot(n: nat, x: nat)
    ensures n == x + MAX_PARTICLES ==> n % MAX_PARTICLES == x % MAX_PARTICLES
  {
  }

  // Only the last 128 spawns can be alive: a slot always holds one of them.
  lemma {:induction false} LatestIsRecent(h: seq<Event>, slot: nat) returns (k: nat)
    requires EverFilled(h, slot)
    ensures k < |h| && h[k] == Spawned(Latest(h, slot)) && Spawns(h[..k]) % 128 == slot
    ensures Spawns(h) - 128 <= Spawns(h[..k]) < Spawns(h)
  {
    var front := h[..|h| - 1];
    if Fills(h, slot) {
      k := |h| - 1;
    } else {
      k := LatestIsRecent(front, slot);
      assert h[..k] == front[..k];
      SameSlot(Spawns(front), Spawns(h[..k]));
    }
  }
}

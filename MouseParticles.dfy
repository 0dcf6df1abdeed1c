/**
 * The mouse trail: every mouse move pushes two particles onto a list, and every animation
 * frame walks the list from its end, ages each particle by one and splices out those whose
 * life has run out. Only a particle's integer `life` is modelled; its position, velocity,
 * size and the drawing are floats and canvas calls.
 */
module MouseParticles {

  /** The life a particle is created with, in frames. */
  const InitialLife: int := 50

  /** Below this window width the effect is not set up at all. */
  const MinWindowWidth: int := 768

  /** Particles created per mouse move. */
  const ParticlesPerMove: nat := 2

  datatype Particle = Particle(life: int)

  /** The effect only runs on windows at least `MinWindowWidth` wide. */
  predicate EffectEnabled(innerWidth: int) {
    !(innerWidth < MinWindowWidth)
  }

  /** One particle's share of a frame: one life less, and gone if none is left. */
  function Aged(p: Particle): (r: seq<Particle>)
    ensures |r| <= 1
    ensures r == [] <==> p.life - 1 <= 0
    ensures r != [] ==> r[0].life == p.life - 1
  {
    if p.life - 1 <= 0 then [] else [Particle(p.life - 1)]
  }

  /**
   * The list after one frame: every particle a life older, those at or below zero removed,
   * the survivors in their original order.
   */
  function Frame(ps: seq<Particle>): (r: seq<Particle>)
    ensures |r| <= |ps|
    ensures forall j :: 0 <= j < |r| ==> r[j].life >= 1
  {
    if ps == [] then [] else Aged(ps[0]) + Frame(ps[1..])
  }

  /** `n` frames with no new particles. */
  function Frames(ps: seq<Particle>, n: nat): seq<Particle>
    decreases n
  {
    if n == 0 then ps else Frames(Frame(ps), n - 1)
  }

  /** The particles whose life exceeds `k`, each `k` lives older, in order. */
  function OlderBy(ps: seq<Particle>, k: nat): seq<Particle> {
    if ps == [] then []
    else (if ps[0].life > k then [Particle(ps[0].life - k)] else []) + OlderBy(ps[1..], k)
  }

  /** A frame handles each particle on its own: the frame of a concatenation is the concatenation. */
  lemma {:induction false} FrameDistributes(a: seq<Particle>, b: seq<Particle>)
    ensures Frame(a + b) == Frame(a) + Frame(b)
  {
    if a != [] {
      assert (a + b)[0] == a[0];
      assert (a + b)[1..] == a[1..] + b;
      FrameDistributes(a[1..], b);
      calc {
        Frame(a + b);
        Aged(a[0]) + Frame(a[1..] + b);
        Aged(a[0]) + (Frame(a[1..]) + Frame(b));
        (Aged(a[0]) + Frame(a[1..])) + Frame(b);
      }
    } else {
      assert a + b == b;
    }
  }

  lemma {:induction false} FrameOfOlderBy(ps: seq<Particle>, k: nat)
    ensures Frame(OlderBy(ps, k)) == OlderBy(ps, k + 1)
  {
    if ps != [] {
      var head := if ps[0].life > k then [Particle(ps[0].life - k)] else [];
      FrameDistributes(head, OlderBy(ps[1..], k));
      FrameOfOlderBy(ps[1..], k);
      if ps[0].life > k {
        assert Frame(head) == Aged(head[0]) + Frame([]);
      }
    }
  }

  /**
   * After `n` frames with no new particles, exactly the particles whose life exceeded `n`
   * remain, each `n` lives older, in their original order.
   */
  lemma {:induction false} FramesKeepLongerLived(ps: seq<Particle>, n: nat)
    requires forall i :: 0 <= i < |ps| ==> ps[i].life >= 1
    ensures Frames(ps, n) == OlderBy(ps, n)
  {
    FramesFromOlderBy(ps, 0, n);
    OlderByOfLiving(ps);
  }

  lemma {:induction false} FramesFromOlderBy(ps: seq<Particle>, k: nat, n: nat)
    ensures Frames(OlderBy(ps, k), n) == OlderBy(ps, k + n)
    decreases n
  {
    if n > 0 {
      FrameOfOlderBy(ps, k);
      FramesFromOlderBy(ps, k + 1, n - 1);
    }
  }

  lemma {:induction false} OlderByOfLiving(ps: seq<Particle>)
    requires forall i :: 0 <= i < |ps| ==> ps[i].life >= 1
    ensures OlderBy(ps, 0) == ps
  {
    if ps != [] {
      OlderByOfLiving(ps[1..]);
      assert ps == [ps[0]] + ps[1..];
    }
  }

  /** A fresh particle is still there after 49 frames, with life 1, and gone in the 50th. */
  lemma FreshParticleLifetime()
    ensures Frames([Particle(InitialLife)], 49) == [Particle(1)]
    ensures Frames([Particle(InitialLife)], 50) == []
  {
    FramesKeepLongerLived([Particle(InitialLife)], 49);
    FramesKeepLongerLived([Particle(InitialLife)], 50);
    assert [Particle(InitialLife)][1..] == [];
  }

  /** Between frames every particle has a life between 1 and the initial life. */
  ghost predicate LivesInRange(ps: seq<Particle>) {
    forall i :: 0 <= i < |ps| ==> 1 <= ps[i].life <= InitialLife
  }

  lemma {:induction false} FrameKeepsLivesInRange(ps: seq<Particle>)
    requires LivesInRange(ps)
    ensures LivesInRange(Frame(ps))
  {
    if ps != [] {
      FrameKeepsLivesInRange(ps[1..]);
    }
  }

  class MouseParticles {
    const enabled: bool
    var particles: seq<Particle>

    ghost predicate Valid()
      reads this
    {
      LivesInRange(particles)
    }

    /** The effect's setup, for a window `innerWidth` wide: nothing is set up on narrow windows. */
    constructor (innerWidth: int)
      ensures Valid()
      ensures enabled == EffectEnabled(innerWidth) && particles == []
    {
      enabled := EffectEnabled(innerWidth);
      particles := [];
    }

    /** createParticle: pushes one particle with the full life. */
    method CreateParticle()
      requires Valid() && enabled
      modifies this
      ensures Valid()
      ensures particles == old(particles) + [Particle(InitialLife)]
    {
      particles := particles + [Particle(InitialLife)];
    }

    /** handleMouseMove: creates two particles. */
    method HandleMouseMove()
      requires Valid() && enabled
      modifies this
      ensures Valid()
      ensures particles == old(particles) + [Particle(InitialLife), Particle(InitialLife)]
    {
      for i := 0 to ParticlesPerMove
        invariant Valid()
        invariant particles == old(particles) + seq(i, _ => Particle(InitialLife))
      {
        CreateParticle();
      }
    }

    /** One frame of `animate`: the reverse walk that ages every particle and splices out the dead. */
    method Animate()
      requires Valid() && enabled
      modifies this
      ensures Valid()
      ensures particles == Frame(old(particles))
    {
      ghost var start := particles;
      var i := |particles|;
      while i > 0
        invariant 0 <= i <= |start|
        invariant particles == start[..i] + Frame(start[i..])
      {
        i := i - 1;
        assert start[i..] == [start[i]] + start[i + 1..];
        assert particles[i] == start[i];
        var p := particles[i];
        p := p.(life := p.life - 1);
        particles := particles[i := p];
        if p.life <= 0 {
          particles := particles[..i] + particles[i + 1..];
        }
        assert start[..i + 1] == start[..i] + [start[i]];
      }
      assert start[0..] == start;
      FrameKeepsLivesInRange(start);
    }
  }
}

/**
  The morph animation: particles fly along cubic Bézier curves from pixels of image A
  to pixels of image B and back, driven by a four-phase state machine, while the
  pixels each particle stands for are repainted into two reveal buffers.
 */
module BezierMorph {
  import opened Common
  import opened Bezier
  import opened PixelExtraction
  import opened SpatialGrid
  import opened RevealBuffer

  // ---------------------------------------------------------------------------
  // Particles

  /**
    The random draws one particle consumes: the picks of its start and end pixel,
    its delay and speed, and the two curve handles.
   */
  datatype ParticleDraws = ParticleDraws(pickA: real, pickB: real, delay: real, speed: real,
                                         v1x: real, v1y: real, v2x: real, v2y: real)

  predicate ValidDraws(d: ParticleDraws)
  {
    Unit(d.pickA) && Unit(d.pickB) && Unit(d.delay) && Unit(d.speed) &&
    Unit(d.v1x) && Unit(d.v1y) && Unit(d.v2x) && Unit(d.v2y)
  }

  /**
    A morph particle. Once built it does not change: the dependent pixel lists the
    source hangs on each particle are kept by the animation, indexed like the particles.
   */
  datatype MorphParticle = MorphParticle(start: Pixel, end: Pixel, delay: real, speedMult: real,
                                         curveX: Cubic, curveY: Cubic)

  /** The point of the particle's curve at parameter t. */
  function Position(p: MorphParticle, t: real): Point
  {
    Point(Eval(p.curveX, t), Eval(p.curveY, t))
  }

  /** A particle as the constructor leaves it: timing in range, curve from start to end. */
  predicate Wellformed(p: MorphParticle)
  {
    0.0 <= p.delay < 500.0 && 0.8 <= p.speedMult < 1.2 &&
    Position(p, 0.0) == p.start.Pos() && Position(p, 1.0) == p.end.Pos()
  }

  /** A curve handle: the canvas centre shifted by a random offset of up to half the canvas. */
  function Handle(width: nat, height: nat, ux: real, uy: real): (h: Point)
    requires Unit(ux) && Unit(uy)
    ensures 0.0 <= h.x <= width as real && 0.0 <= h.y <= height as real
  {
    var w := width as real;
    var ht := height as real;
    var v := Point((ux - 0.5) * w * 1.0, (uy - 0.5) * ht * 1.0);
    ScaleWithin(ux, w);
    ScaleWithin(uy, ht);
    assert w / 2.0 + v.x == ux * w && ht / 2.0 + v.y == uy * ht;
    Point(w / 2.0 + v.x, ht / 2.0 + v.y)
  }

  /** The particle the constructor builds from a start pixel, an end pixel and its draws. */
  function NewParticle(start: Pixel, end: Pixel, width: nat, height: nat, d: ParticleDraws): (p: MorphParticle)
    requires ValidDraws(d)
    ensures p.start == start && p.end == end
    ensures Wellformed(p)
  {
    var h1 := Handle(width, height, d.v1x, d.v1y);
    var h2 := Handle(width, height, d.v2x, d.v2y);
    MorphParticle(start, end, d.delay * 500.0, 0.8 + d.speed * 0.4,
                  Coefficients(start.x, h1.x, h2.x, end.x), Coefficients(start.y, h1.y, h2.y, end.y))
  }

  /** The particle follows the Bézier curve through its start, its two handles and its end. */
  lemma ParticleFollowsCurve(start: Pixel, end: Pixel, width: nat, height: nat, d: ParticleDraws, t: real)
    requires ValidDraws(d)
    ensures var h1 := Handle(width, height, d.v1x, d.v1y);
            var h2 := Handle(width, height, d.v2x, d.v2y);
            Position(NewParticle(start, end, width, height, d), t) ==
            Point(Bernstein(start.x, h1.x, h2.x, end.x, t), Bernstein(start.y, h1.y, h2.y, end.y, t))
  {
    var h1 := Handle(width, height, d.v1x, d.v1y);
    var h2 := Handle(width, height, d.v2x, d.v2y);
    CoefficientsMatchBernstein(start.x, h1.x, h2.x, end.x, t);
    CoefficientsMatchBernstein(start.y, h1.y, h2.y, end.y, t);
  }

  // ---------------------------------------------------------------------------
  // Per-particle schedule, position and colour

  datatype Phase = RestA | ToB | RestB | ToA
  {
    predicate Rest() { this == RestA || this == RestB }
  }

  /** The base transition duration every particle stretches by its speed multiplier. */
  const TransitionDuration: real := 2500.0

  /** How far the particle is through a transition: its delay passed, then linear, capped at 1. */
  function Progress(p: MorphParticle, phaseTime: real, transitionDuration: real): (prog: real)
    requires p.speedMult > 0.0 && transitionDuration > 0.0
    ensures 0.0 <= prog <= 1.0
    ensures phaseTime <= p.delay ==> prog == 0.0
    ensures phaseTime >= p.delay + transitionDuration * p.speedMult ==> prog == 1.0
  {
    var duration := transitionDuration * p.speedMult;
    var effectiveTime := Max(0.0, phaseTime - p.delay);
    DivBounds(effectiveTime, duration);
    Min(1.0, effectiveTime / duration)
  }

  /**
    The particle's curve parameter t in a phase, `phaseTime` after the phase began: 0 at
    rest on image A, 1 at rest on image B, the progress towards B, or one minus it.
   */
  function LocalT(p: MorphParticle, phase: Phase, phaseTime: real, transitionDuration: real): (t: real)
    requires p.speedMult > 0.0 && transitionDuration > 0.0
    ensures 0.0 <= t <= 1.0
    ensures phase == RestA ==> t == 0.0
    ensures phase == RestB ==> t == 1.0
  {
    var raw := match phase
      case RestA => 0.0
      case RestB => 1.0
      case ToB => Progress(p, phaseTime, transitionDuration)
      case ToA => 1.0 - Progress(p, phaseTime, transitionDuration);
    Max(0.0, Min(1.0, raw))
  }

  /** Towards B, t stays 0 until the particle's delay has passed. */
  lemma ToBWaitsForDelay(p: MorphParticle, phaseTime: real)
    requires p.speedMult > 0.0 && phaseTime <= p.delay
    ensures LocalT(p, ToB, phaseTime, TransitionDuration) == 0.0
  {
  }

  /** Towards B, t reaches 1 once delay + 2500 · speedMult has passed. */
  lemma ToBArrives(p: MorphParticle, phaseTime: real)
    requires p.speedMult > 0.0 && phaseTime >= p.delay + TransitionDuration * p.speedMult
    ensures LocalT(p, ToB, phaseTime, TransitionDuration) == 1.0
  {
  }

  /** Towards B, t never decreases as time passes. */
  lemma ToBMonotone(p: MorphParticle, t1: real, t2: real, transitionDuration: real)
    requires p.speedMult > 0.0 && transitionDuration > 0.0 && t1 <= t2
    ensures LocalT(p, ToB, t1, transitionDuration) <= LocalT(p, ToB, t2, transitionDuration)
  {
    var duration := transitionDuration * p.speedMult;
    var e1 := Max(0.0, t1 - p.delay);
    var e2 := Max(0.0, t2 - p.delay);
    ProgressIs(p, t1, transitionDuration, duration, e1);
    ProgressIs(p, t2, transitionDuration, duration, e2);
    DivMono(e1, e2, duration);
  }

  /** Progress is the elapsed time past the delay over the stretched duration, capped at 1. */
  lemma ProgressIs(p: MorphParticle, phaseTime: real, transitionDuration: real, duration: real, e: real)
    requires p.speedMult > 0.0 && transitionDuration > 0.0
    requires duration == transitionDuration * p.speedMult && e == Max(0.0, phaseTime - p.delay)
    ensures Progress(p, phaseTime, transitionDuration) == Min(1.0, e / duration)
  {
    assert Progress(p, phaseTime, transitionDuration) == Min(1.0, Max(0.0, phaseTime - p.delay) / (transitionDuration * p.speedMult));
  }

  /** Towards A, t is one minus the value towards B at the same time: the same path, reversed. */
  lemma ToAMirrorsToB(p: MorphParticle, phaseTime: real, transitionDuration: real)
    requires p.speedMult > 0.0 && transitionDuration > 0.0
    ensures LocalT(p, ToA, phaseTime, transitionDuration) ==
            1.0 - LocalT(p, ToB, phaseTime, transitionDuration)
  {
  }

  /** `floor(a + (b - a) · t)`: a colour channel interpolated from a to b. */
  function Lerp(a: byte, b: byte, t: real): (c: int)
    requires 0.0 <= t <= 1.0
    ensures if a <= b then a <= c <= b else b <= c <= a
    ensures t == 0.0 ==> c == a
    ensures t == 1.0 ==> c == b
  {
    LerpBetween(a, b, t);
    (a as real + (b - a) as real * t).Floor
  }

  /** `a + (b - a) · t` lies between a and b. */
  lemma LerpBetween(a: int, b: int, t: real)
    requires 0.0 <= t <= 1.0
    ensures var x := a as real + (b - a) as real * t;
            if a <= b then a as real <= x <= b as real else b as real <= x <= a as real
  {
    var d := (b - a) as real;
    var e := (a - b) as real;
    assert d == b as real - a as real && e == a as real - b as real;
    assert a <= b ==> 0.0 <= d * t <= d;
    assert a > b ==> 0.0 <= e * t <= e;
    assert d * t == -(e * t);
  }

  /** What a particle shows in one frame: its parameter, its position and its colour. */
  datatype Frame = Frame(t: real, pos: Point, r: byte, g: byte, b: byte)

  /**
    The per-particle part of a frame: the particle is drawn at the point of its curve for
    its current t, in a colour that moves channel by channel from its start colour to its
    end colour and never leaves the range between them; at t = 0 a wellformed particle is
    on its start pixel in that pixel's colour, at t = 1 on its end pixel in that one's.
   */
  function Render(p: MorphParticle, phase: Phase, phaseTime: real): (f: Frame)
    requires p.speedMult > 0.0
    ensures 0.0 <= f.t <= 1.0
    ensures f.t == LocalT(p, phase, phaseTime, TransitionDuration)
    ensures f.pos == Position(p, f.t)
    ensures f.r == Lerp(p.start.r, p.end.r, f.t) && f.g == Lerp(p.start.g, p.end.g, f.t) && f.b == Lerp(p.start.b, p.end.b, f.t)
    ensures Min(p.start.r as real, p.end.r as real) <= f.r as real <= Max(p.start.r as real, p.end.r as real)
    ensures Min(p.start.g as real, p.end.g as real) <= f.g as real <= Max(p.start.g as real, p.end.g as real)
    ensures Min(p.start.b as real, p.end.b as real) <= f.b as real <= Max(p.start.b as real, p.end.b as real)
    ensures Wellformed(p) && f.t == 0.0 ==> f.pos == p.start.Pos() && (f.r, f.g, f.b) == (p.start.r, p.start.g, p.start.b)
    ensures Wellformed(p) && f.t == 1.0 ==> f.pos == p.end.Pos() && (f.r, f.g, f.b) == (p.end.r, p.end.g, p.end.b)
  {
    var t := LocalT(p, phase, phaseTime, TransitionDuration);
    Frame(t, Position(p, t), Lerp(p.start.r, p.end.r, t), Lerp(p.start.g, p.end.g, t), Lerp(p.start.b, p.end.b, t))
  }

  /** At rest on A a particle sits on its start pixel in its colour; at rest on B, on its end pixel. */
  lemma RenderAtRest(p: MorphParticle, phaseTime: real)
    requires Wellformed(p)
    ensures Render(p, RestA, phaseTime) == Frame(0.0, p.start.Pos(), p.start.r, p.start.g, p.start.b)
    ensures Render(p, RestB, phaseTime) == Frame(1.0, p.end.Pos(), p.end.r, p.end.g, p.end.b)
  {
  }

  // ---------------------------------------------------------------------------
  // Pixel filter and particle creation

  /** The morph filter: drop near-white pixels (r, g and b all above 240) and transparent ones. */
  function KeepMorph(r: byte, g: byte, b: byte, a: byte): bool
  {
    !(r > 240 && g > 240 && b > 240) && a > 0
  }

  /** The pixels of an image centred on a window of the given size. */
  function MorphPixels(img: Image, innerWidth: int, innerHeight: int): seq<Pixel>
    requires img.Valid()
  {
    ImageIsShaped(img);
    Extract(img.data, img.width, (innerWidth - img.width) as real / 2.0, (innerHeight - img.height) as real / 2.0,
            KeepMorph, |img.data| / 4)
  }

  /** A pixel of the image is extracted exactly when it is neither near-white nor transparent. */
  lemma MorphPixelKept(img: Image, innerWidth: int, innerHeight: int, j: nat)
    requires img.Valid() && img.width > 0 && j < |img.data| / 4
    ensures PixelAt(img.data, img.width, (innerWidth - img.width) as real / 2.0,
                    (innerHeight - img.height) as real / 2.0, j) in MorphPixels(img, innerWidth, innerHeight)
            <==> !(img.data[4 * j] > 240 && img.data[4 * j + 1] > 240 && img.data[4 * j + 2] > 240) &&
                 img.data[4 * j + 3] > 0
  {
    ImageIsShaped(img);
    ExtractExactly(img.data, img.width, (innerWidth - img.width) as real / 2.0,
                   (innerHeight - img.height) as real / 2.0, KeepMorph, |img.data| / 4, j);
  }

  /** Collects the image's pixels, stepping four bytes at a time. */
  method GetPixels(img: Image, innerWidth: int, innerHeight: int) returns (pixels: seq<Pixel>)
    requires img.Valid()
    ensures pixels == MorphPixels(img, innerWidth, innerHeight)
  {
    ImageIsShaped(img);
    var data := img.data;
    var offX := (innerWidth - img.width) as real / 2.0;
    var offY := (innerHeight - img.height) as real / 2.0;
    pixels := [];
    var i := 0;
    ghost var j: nat := 0;
    while i < |data|
      invariant i == 4 * j <= |data|
      invariant pixels == Extract(data, img.width, offX, offY, KeepMorph, j)
    {
      ExtractStep(data, img.width, offX, offY, KeepMorph, i, j);
      var r, g, b := data[i], data[i + 1], data[i + 2];
      var isWhite := r > 240 && g > 240 && b > 240;
      if !isWhite && data[i + 3] > 0 {
        pixels := pixels + [Pixel(i / 4, ((i / 4) % img.width) as real + offX, ((i / 4) / img.width) as real + offY, r, g, b)];
      }
      i := i + 4;
      j := j + 1;
    }
    assert j == |data| / 4;
  }

  /**
    The particles built from the draws: one per draw when both images have pixels,
    none otherwise (a pick from an empty list is undefined and skipped).
   */
  function Spawned(pixelsA: seq<Pixel>, pixelsB: seq<Pixel>, width: nat, height: nat, draws: seq<ParticleDraws>): (ps: seq<MorphParticle>)
    requires forall i :: 0 <= i < |draws| ==> ValidDraws(draws[i])
    ensures |ps| == if pixelsA != [] && pixelsB != [] then |draws| else 0
    ensures forall i :: 0 <= i < |ps| ==> Wellformed(ps[i]) && ps[i].start in pixelsA && ps[i].end in pixelsB
  {
    if draws == [] then []
    else
      var prefix := Spawned(pixelsA, pixelsB, width, height, draws[..|draws| - 1]);
      var d := draws[|draws| - 1];
      assert ValidDraws(d);
      if pixelsA != [] && pixelsB != [] then
        prefix + [NewParticle(pixelsA[Pick(d.pickA, |pixelsA|)], pixelsB[Pick(d.pickB, |pixelsB|)], width, height, d)]
      else
        prefix
  }

  /** Builds one particle per draw, skipping draws whose picks are undefined. */
  method CreateParticles(pixelsA: seq<Pixel>, pixelsB: seq<Pixel>, width: nat, height: nat, draws: seq<ParticleDraws>)
    returns (particles: seq<MorphParticle>)
    requires forall i :: 0 <= i < |draws| ==> ValidDraws(draws[i])
    ensures particles == Spawned(pixelsA, pixelsB, width, height, draws)
  {
    particles := [];
    for i := 0 to |draws|
      invariant particles == Spawned(pixelsA, pixelsB, width, height, draws[..i])
    {
      assert draws[..i + 1][..i] == draws[..i];
      var d := draws[i];
      if |pixelsA| > 0 && |pixelsB| > 0 {
        var start := pixelsA[Pick(d.pickA, |pixelsA|)];
        var end := pixelsB[Pick(d.pickB, |pixelsB|)];
        particles := particles + [NewParticle(start, end, width, height, d)];
      }
    }
    assert draws[..|draws|] == draws;
  }

  /** The anchors the grid assignment uses: the particles' start or end pixels. */
  function Starts(ps: seq<MorphParticle>): (a: seq<Point>)
    ensures |a| == |ps|
  {
    seq(|ps|, i requires 0 <= i < |ps| => ps[i].start.Pos())
  }

  function Ends(ps: seq<MorphParticle>): (a: seq<Point>)
    ensures |a| == |ps|
  {
    seq(|ps|, i requires 0 <= i < |ps| => ps[i].end.Pos())
  }

  // ---------------------------------------------------------------------------
  // Phase state machine

  /** The animation's schedule: its phase, when the phase began and its nominal duration. */
  datatype Schedule = Schedule(phase: Phase, startTime: real, duration: real)

  /** A transition completes once more than this many milliseconds have passed. */
  const SettleTime: real := 4000.0

  /** The phase the cycle moves to next. */
  function Next(phase: Phase): Phase
  {
    match phase
    case RestA => ToB
    case ToB => RestB
    case RestB => ToA
    case ToA => RestA
  }

  /** `getRandomDuration`: the fixed 2500 ms of a transition, or 3000 to 5000 ms of rest. */
  function RandomDuration(phase: Phase, u: real): (d: real)
    requires Unit(u)
    ensures !phase.Rest() ==> d == TransitionDuration
    ensures phase.Rest() ==> 3000.0 <= d < 5000.0
  {
    if !phase.Rest() then TransitionDuration else 3000.0 + u * (5000.0 - 3000.0)
  }

  /** A transition carries the transition duration, a rest a duration from its range. */
  predicate ScheduleOk(s: Schedule)
  {
    if s.phase.Rest() then 3000.0 <= s.duration < 5000.0 else s.duration == TransitionDuration
  }

  /** A click or touch: from rest start the transition to the other image, otherwise do nothing. */
  function Trigger(s: Schedule, now: real): (r: Schedule)
    ensures r.phase == s.phase || r.phase == Next(s.phase)
    ensures r != s <==> s.phase.Rest()
    ensures r != s ==> r.phase == Next(s.phase) && r.startTime == now && r.duration == TransitionDuration
    ensures ScheduleOk(s) ==> ScheduleOk(r)
  {
    match s.phase
    case RestA => Schedule(ToB, now, TransitionDuration)
    case RestB => Schedule(ToA, now, TransitionDuration)
    case _ => s
  }

  /**
    The phase update of one animation frame at `timestamp`: a transition ends once more
    than 4000 ms have passed since it began; rest phases wait for a trigger.
   */
  function Tick(s: Schedule, timestamp: real, u: real): (r: Schedule)
    requires Unit(u)
    ensures r.phase == s.phase || r.phase == Next(s.phase)
    ensures s.phase.Rest() ==> r == s
    ensures r.phase != s.phase <==> !s.phase.Rest() && timestamp - s.startTime > SettleTime
    ensures r.phase == s.phase ==> r == s
    ensures r.phase != s.phase ==> r.startTime == timestamp
    ensures ScheduleOk(s) ==> ScheduleOk(r)
  {
    if !s.phase.Rest() && timestamp - s.startTime > SettleTime then
      var next := Next(s.phase);
      Schedule(next, timestamp, RandomDuration(next, u))
    else
      s
  }

  /** A full cycle: two triggers, each followed by a frame after the transition settles, return to A. */
  lemma FullCycle(s: Schedule, t1: real, t2: real, t3: real, t4: real, u1: real, u2: real)
    requires s.phase == RestA && Unit(u1) && Unit(u2)
    requires t2 - t1 > SettleTime && t4 - t3 > SettleTime
    ensures Tick(Trigger(s, t1), t2, u1).phase == RestB
    ensures Tick(Trigger(Tick(Trigger(s, t1), t2, u1), t3), t4, u2).phase == RestA
  {
  }

  // ---------------------------------------------------------------------------
  // Reveal buffers

  /** Alpha of image A's pixels while a particle is near its start (t < 0.3). */
  function AlphaA(t: real): (a: int)
    ensures 0.0 <= t < 0.3 ==> 0 <= a <= 255
    ensures t == 0.0 ==> a == 255
  {
    (255.0 * (1.0 - t / 0.3)).Floor
  }

  /** Alpha of image B's pixels while a particle is near its end (t > 0.7). */
  function AlphaB(t: real): (a: int)
    ensures 0.7 < t <= 1.0 ==> 0 <= a <= 255
    ensures t == 1.0 ==> a == 255
  {
    (255.0 * ((t - 0.7) / 0.3)).Floor
  }

  /** Image A fades out as t grows. */
  lemma AlphaAFades(t1: real, t2: real)
    requires t1 <= t2
    ensures AlphaA(t1) >= AlphaA(t2)
  {
    assert 255.0 * (1.0 - t1 / 0.3) >= 255.0 * (1.0 - t2 / 0.3);
  }

  /** Image B fades in as t grows. */
  lemma AlphaBGrows(t1: real, t2: real)
    requires t1 <= t2
    ensures AlphaB(t1) <= AlphaB(t2)
  {
    assert 255.0 * ((t1 - 0.7) / 0.3) <= 255.0 * ((t2 - 0.7) / 0.3);
  }

  /** The pixel slot a dependent pixel is painted at: row floor(y), column floor(x). */
  function SlotOf(px: Pixel, width: nat): int
  {
    px.y.Floor * width + px.x.Floor
  }

  /** The writes repainting a particle's dependent pixels in their own colour at one alpha. */
  function PixelWrites(pxs: seq<Pixel>, width: nat, alpha: byte): (ws: seq<Write>)
    ensures |ws| == |pxs|
  {
    seq(|pxs|, i requires 0 <= i < |pxs| => Write(SlotOf(pxs[i], width), pxs[i].r, pxs[i].g, pxs[i].b, alpha))
  }

  /** A particle's writes to buffer A: its image-A pixels, while it is near its start. */
  function LayerA(p: MorphParticle, pxs: seq<Pixel>, phase: Phase, phaseTime: real, width: nat): (ws: seq<Write>)
    requires p.speedMult > 0.0
    ensures ws != [] ==> LocalT(p, phase, phaseTime, TransitionDuration) < 0.3
    ensures forall i :: 0 <= i < |ws| ==> ws[i].a >= 1
  {
    var t := LocalT(p, phase, phaseTime, TransitionDuration);
    if t < 0.3 && AlphaA(t) > 0 then PixelWrites(pxs, width, AlphaA(t)) else []
  }

  /** A particle's writes to buffer B: its image-B pixels, while it is near its end. */
  function LayerB(p: MorphParticle, pxs: seq<Pixel>, phase: Phase, phaseTime: real, width: nat): (ws: seq<Write>)
    requires p.speedMult > 0.0
    ensures ws != [] ==> LocalT(p, phase, phaseTime, TransitionDuration) > 0.7
    ensures forall i :: 0 <= i < |ws| ==> ws[i].a >= 1
  {
    var t := LocalT(p, phase, phaseTime, TransitionDuration);
    if t > 0.7 && AlphaB(t) > 0 then PixelWrites(pxs, width, AlphaB(t)) else []
  }

  predicate Moving(ps: seq<MorphParticle>)
  {
    forall i :: 0 <= i < |ps| ==> ps[i].speedMult > 0.0
  }

  /** All writes to buffer A in one frame, particle after particle. */
  function FrameA(ps: seq<MorphParticle>, deps: seq<seq<Pixel>>, phase: Phase, phaseTime: real, width: nat): (ws: seq<Write>)
    requires Moving(ps) && |deps| == |ps|
    ensures forall i :: 0 <= i < |ws| ==> ws[i].a >= 1
  {
    if ps == [] then []
    else
      var n := |ps| - 1;
      FrameA(ps[..n], deps[..n], phase, phaseTime, width) + LayerA(ps[n], deps[n], phase, phaseTime, width)
  }

  /** All writes to buffer B in one frame, particle after particle. */
  function FrameB(ps: seq<MorphParticle>, deps: seq<seq<Pixel>>, phase: Phase, phaseTime: real, width: nat): (ws: seq<Write>)
    requires Moving(ps) && |deps| == |ps|
    ensures forall i :: 0 <= i < |ws| ==> ws[i].a >= 1
  {
    if ps == [] then []
    else
      var n := |ps| - 1;
      FrameB(ps[..n], deps[..n], phase, phaseTime, width) + LayerB(ps[n], deps[n], phase, phaseTime, width)
  }

  /** At rest on A, buffer A is painted fully opaque and buffer B not at all. */
  lemma {:induction false} RestAShowsA(ps: seq<MorphParticle>, deps: seq<seq<Pixel>>, phaseTime: real, width: nat)
    requires Moving(ps) && |deps| == |ps|
    ensures FrameB(ps, deps, RestA, phaseTime, width) == []
    ensures forall i :: 0 <= i < |FrameA(ps, deps, RestA, phaseTime, width)| ==>
      FrameA(ps, deps, RestA, phaseTime, width)[i].a == 255
  {
    if ps != [] {
      var n := |ps| - 1;
      RestAShowsA(ps[..n], deps[..n], phaseTime, width);
    }
  }

  /** Every particle is well formed. */
  predicate AllWellformed(ps: seq<MorphParticle>)
  {
    forall i :: 0 <= i < |ps| ==> Wellformed(ps[i])
  }

  /**
    What `init` computes from the two images: the particles spawned from their useful
    pixels, and each image's pixels handed to the nearest particle, by start position
    on image A and by end position on image B.
   */
  ghost predicate Initialized(imgA: Image, imgB: Image, innerWidth: nat, innerHeight: nat, draws: seq<ParticleDraws>,
                              ps: seq<MorphParticle>, depA: seq<seq<Pixel>>, depB: seq<seq<Pixel>>)
  {
    imgA.Valid() && imgB.Valid() && (forall i :: 0 <= i < |draws| ==> ValidDraws(draws[i])) &&
    ps == Spawned(MorphPixels(imgA, innerWidth, innerHeight), MorphPixels(imgB, innerWidth, innerHeight),
                  innerWidth, innerHeight, draws) &&
    |depA| == |ps| && |depB| == |ps| &&
    forall k :: 0 <= k < |ps| ==>
      depA[k] == Assigned(MorphPixels(imgA, innerWidth, innerHeight), Starts(ps), k) &&
      depB[k] == Assigned(MorphPixels(imgB, innerWidth, innerHeight), Ends(ps), k)
  }

  /**
    The particle half of `init`: extract both images' pixels, create the particles,
    and hand every pixel of A to the particle starting nearest it and every pixel
    of B to the particle ending nearest it.
   */
  method InitParticles(imgA: Image, imgB: Image, innerWidth: nat, innerHeight: nat, draws: seq<ParticleDraws>)
    returns (ps: seq<MorphParticle>, depA: seq<seq<Pixel>>, depB: seq<seq<Pixel>>)
    requires imgA.Valid() && imgB.Valid()
    requires forall i :: 0 <= i < |draws| ==> ValidDraws(draws[i])
    ensures Initialized(imgA, imgB, innerWidth, innerHeight, draws, ps, depA, depB)
    ensures |depA| == |ps| && |depB| == |ps| && AllWellformed(ps)
  {
    var pixelsA := GetPixels(imgA, innerWidth, innerHeight);
    var pixelsB := GetPixels(imgB, innerWidth, innerHeight);
    ps := CreateParticles(pixelsA, pixelsB, innerWidth, innerHeight, draws);
    depA := MapPixelsToParticles(pixelsA, Starts(ps));
    depB := MapPixelsToParticles(pixelsB, Ends(ps));
  }

  /** The length of an RGBA buffer of w × h pixels. */
  function BufferLength(w: nat, h: nat): nat
  {
    4 * (w * h)
  }

  /** At rest on B, buffer B is painted fully opaque and buffer A not at all. */
  lemma {:induction false} RestBShowsB(ps: seq<MorphParticle>, deps: seq<seq<Pixel>>, phaseTime: real, width: nat)
    requires Moving(ps) && |deps| == |ps|
    ensures FrameA(ps, deps, RestB, phaseTime, width) == []
    ensures forall i :: 0 <= i < |FrameB(ps, deps, RestB, phaseTime, width)| ==>
      FrameB(ps, deps, RestB, phaseTime, width)[i].a == 255
  {
    if ps != [] {
      var n := |ps| - 1;
      RestBShowsB(ps[..n], deps[..n], phaseTime, width);
    }
  }

  // ---------------------------------------------------------------------------
  // The animation

  /** One more particle adds its own layer at the end of each buffer's writes. */
  lemma FrameStep(ps: seq<MorphParticle>, depsA: seq<seq<Pixel>>, depsB: seq<seq<Pixel>>,
                  phase: Phase, phaseTime: real, width: nat, k: nat)
    requires Moving(ps) && |depsA| == |ps| && |depsB| == |ps| && k < |ps|
    ensures FrameA(ps[..k + 1], depsA[..k + 1], phase, phaseTime, width) ==
      FrameA(ps[..k], depsA[..k], phase, phaseTime, width) + LayerA(ps[k], depsA[k], phase, phaseTime, width)
    ensures FrameB(ps[..k + 1], depsB[..k + 1], phase, phaseTime, width) ==
      FrameB(ps[..k], depsB[..k], phase, phaseTime, width) + LayerB(ps[k], depsB[k], phase, phaseTime, width)
  {
    assert ps[..k + 1][..k] == ps[..k];
    assert depsA[..k + 1][..k] == depsA[..k] && depsB[..k + 1][..k] == depsB[..k];
  }

  /**
    What one particle paints in `draw`: near its start it paints its image-A pixels
    into buffer A, near its end its image-B pixels into buffer B, each at the alpha
    of its position on the path.
   */
  method PaintLayers(dataA: array<byte>, dataB: array<byte>, p: MorphParticle, depA: seq<Pixel>, depB: seq<Pixel>,
                     phase: Phase, phaseTime: real, width: nat)
    requires dataA != dataB && dataA.Length % 4 == 0 && dataB.Length % 4 == 0 && p.speedMult > 0.0
    modifies dataA, dataB
    ensures dataA[..] == Apply(old(dataA[..]), LayerA(p, depA, phase, phaseTime, width))
    ensures dataB[..] == Apply(old(dataB[..]), LayerB(p, depB, phase, phaseTime, width))
  {
    var t := LocalT(p, phase, phaseTime, TransitionDuration);
    if t < 0.3 {
      var alpha := AlphaA(t);
      if alpha > 0 {
        PaintAll(dataA, PixelWrites(depA, width, alpha));
      }
    }
    if t > 0.7 {
      var alpha := AlphaB(t);
      if alpha > 0 {
        PaintAll(dataB, PixelWrites(depB, width, alpha));
      }
    }
  }

  /**
    The animation's invariant over its fields: two distinct RGBA buffers of the
    window's size, one dependent list per particle in each image, well-formed
    particles and a schedule whose duration suits its phase.
   */
  ghost predicate ValidState(width: nat, height: nat, particles: seq<MorphParticle>,
                             dependentA: seq<seq<Pixel>>, dependentB: seq<seq<Pixel>>,
                             dataA: array<byte>, dataB: array<byte>, s: Schedule)
  {
    dataA != dataB &&
    dataA.Length == dataB.Length == BufferLength(width, height) && dataA.Length % 4 == 0 &&
    |dependentA| == |particles| && |dependentB| == |particles| &&
    AllWellformed(particles) &&
    ScheduleOk(s)
  }

  /**
    The state the animation starts in once `init` completes: the particles and
    their dependent pixels, two cleared buffers of the window's size, and the rest
    phase on image A starting now.
   */
  method Start(imgA: Image, imgB: Image, innerWidth: nat, innerHeight: nat, restDraw: real,
               draws: seq<ParticleDraws>, now: real)
    returns (ps: seq<MorphParticle>, depA: seq<seq<Pixel>>, depB: seq<seq<Pixel>>,
             bufA: array<byte>, bufB: array<byte>, s: Schedule)
    requires imgA.Valid() && imgB.Valid() && Unit(restDraw)
    requires forall i :: 0 <= i < |draws| ==> ValidDraws(draws[i])
    ensures ValidState(innerWidth, innerHeight, ps, depA, depB, bufA, bufB, s) && fresh(bufA) && fresh(bufB)
    ensures s == Schedule(RestA, now, RandomDuration(RestA, restDraw))
    ensures Initialized(imgA, imgB, innerWidth, innerHeight, draws, ps, depA, depB)
    ensures bufA[..] == Zeros(bufA.Length) && bufB[..] == Zeros(bufB.Length)
  {
    ps, depA, depB := InitParticles(imgA, imgB, innerWidth, innerHeight, draws);
    var n := BufferLength(innerWidth, innerHeight);
    bufA := NewZeroed(n);
    bufB := NewZeroed(n);
    s := Schedule(RestA, now, RandomDuration(RestA, restDraw));
    assert n % 4 == 0 && ScheduleOk(s);
  }

  class MorphAnimation {
    var width: nat
    var height: nat
    var phase: Phase
    var phaseStartTime: real
    var currentPhaseDuration: real
    var particles: seq<MorphParticle>
    var dependentA: seq<seq<Pixel>>
    var dependentB: seq<seq<Pixel>>
    var dataA: array<byte>
    var dataB: array<byte>

    function Sched(): Schedule
      reads this
    {
      Schedule(phase, phaseStartTime, currentPhaseDuration)
    }

    ghost predicate Valid()
      reads this
    {
      ValidState(width, height, particles, dependentA, dependentB, dataA, dataB, Sched())
    }

    /**
      The constructor followed by `init` once both images are loaded: extract both
      images' pixels, build the particles, hand every pixel to its nearest particle
      and start at rest on image A.
     */
    constructor (imgA: Image, imgB: Image, innerWidth: nat, innerHeight: nat, restDraw: real,
                 draws: seq<ParticleDraws>, now: real)
      requires imgA.Valid() && imgB.Valid() && Unit(restDraw)
      requires forall i :: 0 <= i < |draws| ==> ValidDraws(draws[i])
      ensures Valid() && fresh(dataA) && fresh(dataB)
      ensures width == innerWidth && height == innerHeight
      ensures Sched() == Schedule(RestA, now, RandomDuration(RestA, restDraw))
      ensures Initialized(imgA, imgB, innerWidth, innerHeight, draws, particles, dependentA, dependentB)
      ensures dataA[..] == Zeros(dataA.Length) && dataB[..] == Zeros(dataB.Length)
    {
      var ps, depA, depB, bufA, bufB, s := Start(imgA, imgB, innerWidth, innerHeight, restDraw, draws, now);
      width, height := innerWidth, innerHeight;
      particles, dependentA, dependentB := ps, depA, depB;
      dataA, dataB := bufA, bufB;
      phase, phaseStartTime, currentPhaseDuration := s.phase, s.startTime, s.duration;
    }

    /**
      Both buffers hold exactly what the particles paint over cleared buffers,
      `phaseTime` into the current phase.
     */
    ghost predicate Painted(phaseTime: real)
      reads this, dataA, dataB
      requires Valid()
    {
      dataA[..] == Apply(Zeros(dataA.Length), FrameA(particles, dependentA, phase, phaseTime, width)) &&
      dataB[..] == Apply(Zeros(dataB.Length), FrameB(particles, dependentB, phase, phaseTime, width))
    }

    /** A click or touch. */
    method TriggerTransition(now: real)
      requires Valid()
      modifies this
      ensures Valid()
      ensures Sched() == Trigger(old(Sched()), now)
      ensures width == old(width) && height == old(height) && particles == old(particles)
      ensures dependentA == old(dependentA) && dependentB == old(dependentB)
      ensures dataA == old(dataA) && dataB == old(dataB)
    {
      if phase == RestA {
        phase := ToB;
        phaseStartTime := now;
        currentPhaseDuration := TransitionDuration;
      } else if phase == RestB {
        phase := ToA;
        phaseStartTime := now;
        currentPhaseDuration := TransitionDuration;
      }
    }

    /**
      Repaints both buffers for the current phase, `phaseTime` after it began: clear
      them, then let every particle paint its dependent pixels.
     */
    method Draw(phaseTime: real)
      requires Valid()
      modifies dataA, dataB
      ensures Painted(phaseTime)
    {
      Fill(dataA);
      Fill(dataB);
      for k := 0 to |particles|
        invariant dataA[..] == Apply(Zeros(dataA.Length), FrameA(particles[..k], dependentA[..k], phase, phaseTime, width))
        invariant dataB[..] == Apply(Zeros(dataB.Length), FrameB(particles[..k], dependentB[..k], phase, phaseTime, width))
      {
        DrawParticle(k, phaseTime);
      }
      assert particles[..|particles|] == particles;
      assert dependentA[..|particles|] == dependentA && dependentB[..|particles|] == dependentB;
    }

    /** The buffer writes of particle k (the body of the per-particle loop of `draw`). */
    method DrawParticle(k: nat, phaseTime: real)
      requires Valid() && k < |particles|
      requires dataA[..] == Apply(Zeros(dataA.Length), FrameA(particles[..k], dependentA[..k], phase, phaseTime, width))
      requires dataB[..] == Apply(Zeros(dataB.Length), FrameB(particles[..k], dependentB[..k], phase, phaseTime, width))
      modifies dataA, dataB
      ensures dataA[..] == Apply(Zeros(dataA.Length), FrameA(particles[..k + 1], dependentA[..k + 1], phase, phaseTime, width))
      ensures dataB[..] == Apply(Zeros(dataB.Length), FrameB(particles[..k + 1], dependentB[..k + 1], phase, phaseTime, width))
    {
      var p := particles[k];
      FrameStep(particles, dependentA, dependentB, phase, phaseTime, width, k);
      ApplyConcat(Zeros(dataA.Length), FrameA(particles[..k], dependentA[..k], phase, phaseTime, width),
                  LayerA(p, dependentA[k], phase, phaseTime, width));
      ApplyConcat(Zeros(dataB.Length), FrameB(particles[..k], dependentB[..k], phase, phaseTime, width),
                  LayerB(p, dependentB[k], phase, phaseTime, width));
      PaintLayers(dataA, dataB, p, dependentA[k], dependentB[k], phase, phaseTime, width);
    }

    /**
      One animation frame at `timestamp`: settle a finished transition into rest
      (drawing a rest duration from `u`), then repaint with the time elapsed since the
      phase start read at the top of the frame.
     */
    method Loop(timestamp: real, u: real)
      requires Valid() && Unit(u)
      modifies this, dataA, dataB
      ensures Valid()
      ensures Sched() == Tick(old(Sched()), timestamp, u)
      ensures width == old(width) && height == old(height) && particles == old(particles)
      ensures dependentA == old(dependentA) && dependentB == old(dependentB)
      ensures dataA == old(dataA) && dataB == old(dataB)
      ensures Painted(timestamp - old(phaseStartTime))
    {
      var elapsed := timestamp - phaseStartTime;
      assert elapsed == timestamp - old(phaseStartTime);
      UpdatePhase(timestamp, u);
      Draw(elapsed);
      assert Painted(elapsed);
    }

    /**
      The phase update at the top of `loop`: a transition that has run for more than
      4000 ms settles into the rest on its target image.
     */
    method UpdatePhase(timestamp: real, u: real)
      requires Valid() && Unit(u)
      modifies this
      ensures Valid()
      ensures Sched() == Tick(old(Sched()), timestamp, u)
      ensures width == old(width) && height == old(height) && particles == old(particles)
      ensures dependentA == old(dependentA) && dependentB == old(dependentB)
      ensures dataA == old(dataA) && dataB == old(dataB)
    {
      var elapsed := timestamp - phaseStartTime;
      if phase == ToB || phase == ToA {
        if elapsed > SettleTime {
          phaseStartTime := timestamp;
          if phase == ToB {
            phase := RestB;
            currentPhaseDuration := RandomDuration(RestB, u);
          } else {
            phase := RestA;
            currentPhaseDuration := RandomDuration(RestA, u);
          }
        }
      }
    }
  }
}

/**
  The image reconstruction: particles fly in from outside the canvas along cubic
  Bézier curves to pixels of one image, and as each particle settles the pixels it
  stands for are revealed in a target buffer. Once a particle has arrived the first
  time, the pointer can push it back along its curve.
 */
module BezierReconstruction {
  import opened Common
  import opened Bezier
  import opened PixelExtraction
  import opened SpatialGrid
  import opened RevealBuffer

  // ---------------------------------------------------------------------------
  // Pixel filter

  /** The reconstruction filter: keep pixels whose mean brightness is below 250. */
  function KeepRecon(r: byte, g: byte, b: byte, a: byte): bool
  {
    (r as int + g as int + b as int) as real / 3.0 < 250.0
  }

  /** The useful pixels of an image, at their own coordinates. */
  function UsefulPixels(img: Image): seq<Pixel>
    requires img.Valid()
  {
    ImageIsShaped(img);
    Extract(img.data, img.width, 0.0, 0.0, KeepRecon, |img.data| / 4)
  }

  /** A pixel is useful exactly when r + g + b is below 750, and then it is recorded at its own column and row. */
  lemma UsefulPixelKept(img: Image, j: nat)
    requires img.Valid() && img.width > 0 && j < |img.data| / 4
    ensures PixelAt(img.data, img.width, 0.0, 0.0, j) in UsefulPixels(img)
            <==> img.data[4 * j] as int + img.data[4 * j + 1] as int + img.data[4 * j + 2] as int < 750
  {
    ImageIsShaped(img);
    ExtractExactly(img.data, img.width, 0.0, 0.0, KeepRecon, |img.data| / 4, j);
  }

  /** Every useful pixel names a pixel of the image. */
  lemma UsefulPixelsInImage(img: Image, i: nat)
    requires img.Valid() && i < |UsefulPixels(img)|
    ensures 4 * UsefulPixels(img)[i].index + 3 < |img.data|
  {
    ImageIsShaped(img);
  }

  /** Collects the useful pixels, stepping four bytes at a time. */
  method GetUsefulPixels(img: Image) returns (usefulPixels: seq<Pixel>)
    requires img.Valid()
    ensures usefulPixels == UsefulPixels(img)
  {
    ImageIsShaped(img);
    var pixels := img.data;
    usefulPixels := [];
    var i := 0;
    ghost var j: nat := 0;
    while i < |pixels|
      invariant i == 4 * j <= |pixels|
      invariant usefulPixels == Extract(pixels, img.width, 0.0, 0.0, KeepRecon, j)
    {
      ExtractStep(pixels, img.width, 0.0, 0.0, KeepRecon, i, j);
      var r, g, b := pixels[i], pixels[i + 1], pixels[i + 2];
      var brightness := (r as int + g as int + b as int) as real / 3.0;
      if brightness < 250.0 {
        usefulPixels := usefulPixels + [Pixel(i / 4, ((i / 4) % img.width) as real, ((i / 4) / img.width) as real, r, g, b)];
      }
      i := i + 4;
      j := j + 1;
    }
    assert j == |pixels| / 4;
  }

  // ---------------------------------------------------------------------------
  // Particle step

  /** What `update` changes: the curve parameter, visibility, opacity and the first-arrival latch. */
  datatype PState = PState(state: real, isActive: bool, alpha: int, completedFirst: bool)

  /** The parameter at which a particle counts as settled. */
  const Settled: real := 1.03

  /**
    The invariant every update leaves: the parameter is capped at 1.03, the particle is
    active exactly while below the cap, fully opaque up to t = 1 and fading (alpha 1 to 76)
    beyond, and a particle past t = 1 has completed its first arrival.
   */
  predicate Consistent(s: PState)
  {
    s.state <= Settled &&
    (s.isActive <==> s.state < Settled) &&
    (s.state <= 1.0 ==> s.alpha == 255) &&
    (s.state > 1.0 ==> 1 <= s.alpha <= 76 && s.completedFirst)
  }

  /** The state of a new particle: at the start of its curve, active, opaque, never arrived. */
  const Initial: PState := PState(0.0, true, 255, false)

  lemma InitialConsistent()
    ensures Consistent(Initial)
  {
  }

  /**
    The pointer's push: 5 with the button down, 1 otherwise, over the distance plus 20.
    `dist` is the Euclidean distance from the pointer to the particle.
   */
  function Repulsion(isMouseDown: bool, dist: real): (f: real)
    requires dist >= 0.0
    ensures 0.0 < f <= 0.25
  {
    var k := if isMouseDown then 5.0 else 1.0;
    DivMono(dist + 20.0 - 20.0, dist, 1.0);
    assert k / (dist + 20.0) <= k / 20.0 by {
      assert (dist + 20.0) * (k / (dist + 20.0)) == k;
      assert 20.0 * (k / 20.0) == k;
    }
    k / (dist + 20.0)
  }

  /** Pressing the button makes the push five times stronger. */
  lemma PressPushesHarder(dist: real)
    requires dist >= 0.0
    ensures Repulsion(true, dist) == 5.0 * Repulsion(false, dist)
  {
  }

  /** The opacity `update` assigns: opaque up to t = 1, then 2550 · (1.03 − t) clamped to [1, 255] and floored. */
  function AlphaFor(state: real): (a: int)
    ensures state <= 1.0 ==> a == 255
    ensures state > 1.0 ==> 1 <= a <= 76
  {
    if state > 1.0 then
      var v := Max(1.0, Min(255.0, 2550.0 * (Settled - state)));
      assert v < 76.5;
      v.Floor
    else
      255
  }

  /**
    `update`: the particle is pulled towards its speed at 1/400 of the gap, pushed back
    by the pointer once it has arrived the first time and the pointer is over the
    canvas, and capped at 1.03.
   */
  function Step(s: PState, speed: real, isMouseDown: bool, isOutside: bool, dist: real): (r: PState)
    requires dist >= 0.0
    ensures Consistent(r)
    ensures r.completedFirst <==> s.completedFirst || r.state > 1.0
  {
    var attractiveForce := (speed - s.state) / 400.0;
    var repulsiveForce := if s.completedFirst && !isOutside then Repulsion(isMouseDown, dist) else 0.0;
    var state := Min(Settled, s.state + (attractiveForce - repulsiveForce));
    PState(state, state < Settled, AlphaFor(state), s.completedFirst || state > 1.0)
  }

  /** The pointer acts on a particle only once it has arrived and only while the pointer is over the canvas. */
  predicate Pushable(s: PState, isOutside: bool)
  {
    s.completedFirst && !isOutside
  }

  /** A particle the pointer cannot push ignores the pointer's button and distance. */
  lemma StepIgnoresPointer(s: PState, speed: real, down1: bool, down2: bool, out1: bool, out2: bool, d1: real, d2: real)
    requires d1 >= 0.0 && d2 >= 0.0
    requires !Pushable(s, out1) && !Pushable(s, out2)
    ensures Step(s, speed, down1, out1, d1) == Step(s, speed, down2, out2, d2)
  {
  }

  /** Once set, the first-arrival latch stays set. */
  lemma LatchHolds(s: PState, speed: real, isMouseDown: bool, isOutside: bool, dist: real)
    requires dist >= 0.0 && s.completedFirst
    ensures Step(s, speed, isMouseDown, isOutside, dist).completedFirst
  {
  }

  /** Undisturbed, a particle below the cap moves strictly forward. */
  lemma StepAdvances(s: PState, speed: real, isMouseDown: bool, isOutside: bool, dist: real)
    requires dist >= 0.0 && !Pushable(s, isOutside)
    requires 2.0 <= speed < 3.0 && s.state < Settled
    ensures Step(s, speed, isMouseDown, isOutside, dist).state > s.state
  {
  }

  /** Undisturbed, a settled particle stays settled. */
  lemma StepStaysSettled(s: PState, speed: real, isMouseDown: bool, isOutside: bool, dist: real)
    requires dist >= 0.0 && !Pushable(s, isOutside)
    requires 2.0 <= speed < 3.0 && s.state == Settled
    ensures Step(s, speed, isMouseDown, isOutside, dist).state == Settled
  {
  }

  /** n frames with the pointer away from the canvas. */
  function Settle(s: PState, speed: real, n: nat): PState
    decreases n
  {
    if n == 0 then s else Settle(Step(s, speed, false, true, 0.0), speed, n - 1)
  }

  /** The least advance per undisturbed frame below the cap: (2 − 1.03) / 400. */
  const MinAdvance: real := 0.002425

  /** One undisturbed frame advances the parameter by at least MinAdvance, up to the cap. */
  lemma StepAdvancesEnough(s: PState, speed: real)
    requires 2.0 <= speed < 3.0
    ensures Step(s, speed, false, true, 0.0).state >= Min(Settled, s.state + MinAdvance)
  {
    var next := s.state + (speed - s.state) / 400.0;
    if s.state < Settled {
      assert (speed - s.state) / 400.0 >= MinAdvance;
    } else {
      assert next >= Settled;
    }
  }

  /** After n undisturbed frames the parameter has advanced by n · MinAdvance, up to the cap. */
  lemma {:induction false} SettleProgress(s: PState, speed: real, n: nat)
    requires 2.0 <= speed < 3.0
    decreases n
    ensures Settle(s, speed, n).state >= Min(Settled, s.state + n as real * MinAdvance)
  {
    if n > 0 {
      var s1 := Step(s, speed, false, true, 0.0);
      StepAdvancesEnough(s, speed);
      SettleProgress(s1, speed, n - 1);
    }
  }

  /**
    Undisturbed, a particle settles at the cap, stops drawing and is left at alpha 1 once
    enough frames have passed to cover its distance to the cap at MinAdvance each; from
    anywhere on its curve (state >= 0) 425 frames are enough.
   */
  lemma SettlesWithin(s: PState, speed: real, n: nat)
    requires 2.0 <= speed < 3.0 && n > 0 && n as real * MinAdvance >= Settled - s.state
    ensures Settle(s, speed, n).state == Settled && !Settle(s, speed, n).isActive
    ensures Settle(s, speed, n).alpha == 1
  {
    SettleProgress(s, speed, n);
    SettleConsistent(s, speed, n);
  }

  /** Any positive number of updates leaves the invariant and the alpha of the state it reaches. */
  lemma {:induction false} SettleConsistent(s: PState, speed: real, n: nat)
    requires n > 0
    decreases n
    ensures Consistent(Settle(s, speed, n))
    ensures Settle(s, speed, n).alpha == AlphaFor(Settle(s, speed, n).state)
  {
    if n > 1 {
      SettleConsistent(Step(s, speed, false, true, 0.0), speed, n - 1);
    }
  }

  /** The alpha written for a particle's pixels: hidden before t = 1, then the inverse of its own opacity. */
  function RevealAlpha(s: PState): (a: byte)
    ensures s.state < 1.0 ==> a == 0
    ensures s.state >= 1.0 && 1 <= s.alpha <= 255 ==> a == 255 - s.alpha
  {
    Clamped(if s.state < 1.0 then 0 else 255 - s.alpha)
  }

  /** After an update the pixels show exactly when the particle is past t = 1, and then nearly opaque. */
  lemma RevealAfterStep(s: PState, speed: real, isMouseDown: bool, isOutside: bool, dist: real)
    requires dist >= 0.0
    ensures var r := Step(s, speed, isMouseDown, isOutside, dist);
            (RevealAlpha(r) > 0 <==> r.state > 1.0) && (r.state > 1.0 ==> 179 <= RevealAlpha(r) <= 254)
  {
  }

  /** Past t = 1 the particle's own alpha only falls as its parameter rises. */
  lemma AlphaForFades(a: real, b: real)
    requires a <= b
    ensures AlphaFor(a) >= AlphaFor(b)
  {
    if a > 1.0 {
      var va := Max(1.0, Min(255.0, 2550.0 * (Settled - a)));
      var vb := Max(1.0, Min(255.0, 2550.0 * (Settled - b)));
      assert vb <= va;
      assert AlphaFor(a) == va.Floor && AlphaFor(b) == vb.Floor;
    }
  }

  /** The fade law of the reveal: the further along a particle is, the more its pixels show. */
  lemma RevealGrows(s1: PState, s2: PState)
    requires s1.state <= s2.state
    requires s1.alpha == AlphaFor(s1.state) && s2.alpha == AlphaFor(s2.state)
    ensures RevealAlpha(s1) <= RevealAlpha(s2)
  {
    if s1.state >= 1.0 {
      AlphaForFades(s1.state, s2.state);
    }
  }

  // ---------------------------------------------------------------------------
  // Drawing a particle

  datatype Colour = Colour(r: byte, g: byte, b: byte)

  /** A disc drawn for a particle: centre, radius, colour and opacity. */
  datatype Dot = Dot(pos: Point, radius: real, colour: Colour, opacity: real)

  /** The particle's marker size: nominal at t ≥ 1, up to six times nominal at t ≤ 0. */
  function Size(nominalSize: real, state: real): (size: real)
    requires nominalSize >= 0.0
    ensures nominalSize <= size
    ensures state >= 1.0 ==> size == nominalSize
  {
    var t := Min(1.0, state);
    var sizeFactor := Max(0.0, 1.0 - t);
    assert nominalSize * sizeFactor >= 0.0;
    nominalSize * (1.0 + 5.0 * sizeFactor)
  }

  /** The marker shrinks as the particle advances. */
  lemma SizeShrinks(nominalSize: real, s1: real, s2: real)
    requires nominalSize >= 0.0 && s1 <= s2
    ensures Size(nominalSize, s2) <= Size(nominalSize, s1)
  {
    var f1 := Max(0.0, 1.0 - Min(1.0, s1));
    var f2 := Max(0.0, 1.0 - Min(1.0, s2));
    assert f2 <= f1;
    assert nominalSize * f2 <= nominalSize * f1;
  }

  /** The disc `draw` paints, or none once the particle has settled. */
  function Marker(curveX: Cubic, curveY: Cubic, nominalSize: real, colour: Colour, s: PState): (d: Option<Dot>)
    requires nominalSize >= 0.0
    ensures d.Some? <==> s.isActive
  {
    if !s.isActive then None
    else
      var t := Min(1.0, s.state);
      Some(Dot(Point(Eval(curveX, t), Eval(curveY, t)), Size(nominalSize, s.state) / 2.0, colour, s.alpha as real / 255.0))
  }

  /** Past t = 1 a visible particle sits on its end point at its nominal size. */
  lemma MarkerAtEnd(curveX: Cubic, curveY: Cubic, nominalSize: real, colour: Colour, s: PState, end: Point)
    requires nominalSize >= 0.0 && s.isActive && s.state >= 1.0
    requires Eval(curveX, 1.0) == end.x && Eval(curveY, 1.0) == end.y
    ensures Marker(curveX, curveY, nominalSize, colour, s).value.pos == end
    ensures Marker(curveX, curveY, nominalSize, colour, s).value.radius == nominalSize / 2.0
  {
  }

  // ---------------------------------------------------------------------------
  // Particles and the animation

  /** The random draws one particle consumes: its pixel pick, start point, two handles and speed. */
  datatype ReconDraws = ReconDraws(pick: real, startX: real, startY: real,
                                   v1x: real, v1y: real, v2x: real, v2y: real, speed: real)

  predicate ValidDraws(d: ReconDraws)
  {
    Unit(d.pick) && Unit(d.startX) && Unit(d.startY) &&
    Unit(d.v1x) && Unit(d.v1y) && Unit(d.v2x) && Unit(d.v2y) && Unit(d.speed)
  }

  /** Where a particle starts: anywhere in a box 2.5 canvases wide around the canvas centre. */
  function StartPoint(width: nat, height: nat, d: ReconDraws): Point
  {
    var w, h := width as real, height as real;
    Point(w / 2.0 + (d.startX - 0.5) * w * 2.5, h / 2.0 + (d.startY - 0.5) * h * 2.5)
  }

  /** A curve handle coordinate: a random offset of up to one canvas size either side of the origin. */
  function HandleAt(size: nat, u: real): real
  {
    (u - 0.5) * size as real * 2.0
  }

  class BezierParticle {
    const curveX: Cubic
    const curveY: Cubic
    const start: Point
    const end: Point
    const colour: Colour
    const nominalSize: real
    const speed: real
    var state: real
    var isActive: bool
    var alpha: int
    var completedFirst: bool

    function Snapshot(): PState
      reads this
    {
      PState(state, isActive, alpha, completedFirst)
    }

    ghost predicate Valid()
      reads this
    {
      nominalSize >= 0.0 && 2.0 <= speed < 3.0 && Consistent(Snapshot())
    }

    /** The cached curve runs from the start point at t = 0 to the end point at t = 1. */
    predicate OnCurve()
    {
      Eval(curveX, 0.0) == start.x && Eval(curveY, 0.0) == start.y &&
      Eval(curveX, 1.0) == end.x && Eval(curveY, 1.0) == end.y
    }

    /**
      A particle bound for `endPos` on a canvas of the given size: it starts anywhere in
      a box 2.5 times the canvas around its centre, its two handles lie within a canvas
      size of the origin, and its speed is between 2 and 3.
     */
    constructor (endPos: Point, colour: Colour, size: real, width: nat, height: nat, d: ReconDraws)
      requires ValidDraws(d) && size >= 0.0
      ensures Valid()
      ensures end == endPos && this.colour == colour && nominalSize == size
      ensures start == StartPoint(width, height, d)
      ensures curveX == Coefficients(start.x, HandleAt(width, d.v1x), HandleAt(width, d.v2x), end.x)
      ensures curveY == Coefficients(start.y, HandleAt(height, d.v1y), HandleAt(height, d.v2y), end.y)
      ensures OnCurve()
      ensures speed == 2.0 + d.speed
      ensures Snapshot() == Initial
    {
      var w := width as real;
      var h := height as real;
      var startX := w / 2.0 + (d.startX - 0.5) * w * 2.5;
      var startY := h / 2.0 + (d.startY - 0.5) * h * 2.5;
      var v1x := (d.v1x - 0.5) * w * 2.0;
      var v1y := (d.v1y - 0.5) * h * 2.0;
      var v2x := (d.v2x - 0.5) * w * 2.0;
      var v2y := (d.v2y - 0.5) * h * 2.0;
      this.colour := colour;
      nominalSize := size;
      end := endPos;
      start := Point(startX, startY);
      curveX := Coefficients(startX, v1x, v2x, endPos.x);
      curveY := Coefficients(startY, v1y, v2y, endPos.y);
      speed := 2.0 + d.speed;
      state := 0.0;
      completedFirst := false;
      isActive := true;
      alpha := 255;
    }

    /** One frame's update; `dist` is the pointer's distance from the particle. */
    method Update(isMouseDown: bool, isOutside: bool, dist: real)
      requires Valid() && dist >= 0.0
      modifies this
      ensures Valid()
      ensures Snapshot() == Step(old(Snapshot()), speed, isMouseDown, isOutside, dist)
    {
      var attractiveForce := (speed - state) / 400.0;
      var repulsiveForce := 0.0;
      if completedFirst && !isOutside {
        repulsiveForce := Repulsion(isMouseDown, dist);
      }
      var force := attractiveForce - repulsiveForce;
      state := Min(Settled, state + force);
      isActive := state < Settled;
      if state > 1.0 {
        alpha := Max(1.0, Min(255.0, 2550.0 * (Settled - state))).Floor;
        completedFirst := true;
      } else {
        alpha := 255;
      }
    }

    /** The disc this particle paints in the current frame. */
    function Draw(): (d: Option<Dot>)
      reads this
      requires Valid()
      ensures d.Some? <==> isActive
    {
      Marker(curveX, curveY, nominalSize, colour, Snapshot())
    }

    /** Past t = 1 a visible particle is drawn on its end point, at its nominal size. */
    lemma DrawnAtEnd()
      requires Valid() && OnCurve() && isActive && state >= 1.0
      ensures Draw().value.pos == end && Draw().value.radius == nominalSize / 2.0
    {
      MarkerAtEnd(curveX, curveY, nominalSize, colour, Snapshot(), end);
    }
  }

  /** The particles' end points, the anchors of the grid assignment. */
  function Ends(ps: seq<BezierParticle>): (a: seq<Point>)
    ensures |a| == |ps|
  {
    seq(|ps|, i requires 0 <= i < |ps| => ps[i].end)
  }

  /** The particles' states, in order. */
  function Snapshots(ps: seq<BezierParticle>): (ss: seq<PState>)
    reads set p | p in ps
    ensures |ss| == |ps| && forall i :: 0 <= i < |ps| ==> ss[i] == ps[i].Snapshot()
  {
    if ps == [] then [] else Snapshots(ps[..|ps| - 1]) + [ps[|ps| - 1].Snapshot()]
  }

  /** The writes revealing a particle's dependent pixels at one alpha. */
  function RevealWrites(pxs: seq<Pixel>, alpha: byte): (ws: seq<Write>)
    ensures |ws| == |pxs|
  {
    seq(|pxs|, i requires 0 <= i < |pxs| => Write(pxs[i].index, pxs[i].r, pxs[i].g, pxs[i].b, alpha))
  }

  /** All writes of one frame, particle after particle, each at the alpha its state reveals. */
  function FrameWrites(deps: seq<seq<Pixel>>, states: seq<PState>): (ws: seq<Write>)
    requires |deps| == |states|
  {
    if states == [] then []
    else
      var n := |states| - 1;
      FrameWrites(deps[..n], states[..n]) + RevealWrites(deps[n], RevealAlpha(states[n]))
  }

  /** Every write of a frame is a dependent pixel's slot. */
  lemma {:induction false} FrameWritesFromDependents(deps: seq<seq<Pixel>>, states: seq<PState>, i: nat)
    requires |deps| == |states|
    requires i < |FrameWrites(deps, states)|
    ensures exists k, m :: 0 <= k < |deps| && 0 <= m < |deps[k]| && FrameWrites(deps, states)[i].slot == deps[k][m].index
  {
    var n := |states| - 1;
    var prefix := FrameWrites(deps[..n], states[..n]);
    if i < |prefix| {
      FrameWritesFromDependents(deps[..n], states[..n], i);
      var k, m :| 0 <= k < |deps[..n]| && 0 <= m < |deps[..n][k]| && prefix[i].slot == deps[..n][k][m].index;
      assert deps[..n][k] == deps[k];
    } else {
      var m := i - |prefix|;
      assert FrameWrites(deps, states)[i].slot == deps[n][m].index;
    }
  }

  /** An alpha byte that no write of the frame hits stays cleared: that pixel is hidden. */
  lemma HiddenUnlessWritten(buf: seq<byte>, ws: seq<Write>, j: nat)
    requires |buf| % 4 == 0 && j < |buf| && j % 4 == 3
    requires forall i :: 0 <= i < |ws| ==> !Hits(|buf|, ws[i], j)
    ensures Apply(AlphaCleared(buf), ws)[j] == 0
  {
    ApplyUntouched(AlphaCleared(buf), ws, j);
  }

  /** The useful pixel a draw picks as a particle's destination. */
  function Target(usefulPixels: seq<Pixel>, d: ReconDraws): (t: Pixel)
    requires ValidDraws(d) && usefulPixels != []
    ensures t in usefulPixels
  {
    usefulPixels[Pick(d.pick, |usefulPixels|)]
  }

  /**
    A particle as `init` builds it from draw d: bound for the useful pixel the draw
    picks, in that pixel's colour, of size 5, starting where the draw puts it, on a
    curve from its start to its end, with speed 2 plus the draw.
   */
  predicate MadeFor(p: BezierParticle, usefulPixels: seq<Pixel>, width: nat, height: nat, d: ReconDraws)
    requires ValidDraws(d) && usefulPixels != []
  {
    var t := Target(usefulPixels, d);
    p.end == t.Pos() && p.colour == Colour(t.r, t.g, t.b) && p.nominalSize == 5.0 &&
    p.start == StartPoint(width, height, d) && p.speed == 2.0 + d.speed && p.OnCurve()
  }

  /** Every particle is made for the draw at its index. */
  predicate AllMadeFor(ps: seq<BezierParticle>, usefulPixels: seq<Pixel>, width: nat, height: nat, draws: seq<ReconDraws>)
    requires |ps| == |draws| && forall i :: 0 <= i < |draws| ==> ValidDraws(draws[i])
    requires |draws| > 0 ==> usefulPixels != []
  {
    forall k :: 0 <= k < |ps| ==> MadeFor(ps[k], usefulPixels, width, height, draws[k])
  }

  /** Creates one particle per draw, each bound for a randomly picked useful pixel. */
  method CreateParticles(usefulPixels: seq<Pixel>, width: nat, height: nat, draws: seq<ReconDraws>)
    returns (ps: seq<BezierParticle>)
    requires forall i :: 0 <= i < |draws| ==> ValidDraws(draws[i])
    requires |draws| > 0 ==> usefulPixels != []
    ensures |ps| == |draws|
    ensures forall a, b :: 0 <= a < b < |ps| ==> ps[a] != ps[b]
    ensures forall k :: 0 <= k < |ps| ==>
      fresh(ps[k]) && ps[k].Valid() && ps[k].Snapshot() == Initial && MadeFor(ps[k], usefulPixels, width, height, draws[k])
  {
    ps := [];
    for i := 0 to |draws|
      invariant |ps| == i
      invariant forall a, b :: 0 <= a < b < i ==> ps[a] != ps[b]
      invariant forall k :: 0 <= k < i ==>
        fresh(ps[k]) && ps[k].Valid() && ps[k].Snapshot() == Initial && MadeFor(ps[k], usefulPixels, width, height, draws[k])
    {
      var d := draws[i];
      var pIdx := Pick(d.pick, |usefulPixels|);
      var target := usefulPixels[pIdx];
      var particle := new BezierParticle(Point(target.x, target.y), Colour(target.r, target.g, target.b), 5.0,
                                         width, height, d);
      ps := ps + [particle];
    }
  }

  /** Every pixel the assignment hands to a particle is a pixel of the image. */
  lemma DependentsInImage(img: Image, anchors: seq<Point>, k: nat, m: nat)
    requires img.Valid() && m < |Assigned(UsefulPixels(img), anchors, k)|
    ensures 4 * Assigned(UsefulPixels(img), anchors, k)[m].index < |img.data|
  {
    var useful := UsefulPixels(img);
    AssignedOnlyToWinner(useful, anchors, k, m);
    var i :| 0 <= i < |useful| && useful[i] == Assigned(useful, anchors, k)[m];
    UsefulPixelsInImage(img, i);
  }

  /**
    The particle half of `init`: extract the useful pixels, create one particle per
    draw, and hand every useful pixel to the particle ending nearest it; the target
    buffer is a new, cleared buffer of the image's size.
   */
  method InitParticles(img: Image, innerWidth: nat, innerHeight: nat, draws: seq<ReconDraws>)
    returns (ps: seq<BezierParticle>, deps: seq<seq<Pixel>>, buf: array<byte>)
    requires img.Valid()
    requires forall i :: 0 <= i < |draws| ==> ValidDraws(draws[i])
    requires |draws| > 0 ==> UsefulPixels(img) != []
    ensures fresh(buf) && buf.Length == |img.data| && buf.Length % 4 == 0 && buf[..] == Zeros(|img.data|)
    ensures |ps| == |draws| && |deps| == |ps|
    ensures forall a, b :: 0 <= a < b < |ps| ==> ps[a] != ps[b]
    ensures forall k :: 0 <= k < |ps| ==> fresh(ps[k]) && ps[k].Valid() && ps[k].Snapshot() == Initial
    ensures AllMadeFor(ps, UsefulPixels(img), innerWidth, innerHeight, draws)
    ensures forall k :: 0 <= k < |ps| ==> deps[k] == Assigned(UsefulPixels(img), Ends(ps), k)
    ensures forall k, m :: 0 <= k < |deps| && 0 <= m < |deps[k]| ==> 4 * deps[k][m].index < buf.Length
  {
    var usefulPixels := GetUsefulPixels(img);
    ps := CreateParticles(usefulPixels, innerWidth, innerHeight, draws);
    deps := MapPixelsToParticles(usefulPixels, Ends(ps));
    forall k, m | 0 <= k < |deps| && 0 <= m < |deps[k]|
      ensures 4 * deps[k][m].index < |img.data|
    {
      DependentsInImage(img, Ends(ps), k, m);
    }
    buf := NewZeroed(|img.data|);
    ImageIsShaped(img);
  }

  /**
    `init` after sizing the canvas: set the particles up, then run the first frame
    with the button up and the pointer outside the canvas, so every particle has
    taken one step from its initial state and the buffer shows that frame.
   */
  method Init(img: Image, innerWidth: nat, innerHeight: nat, draws: seq<ReconDraws>)
    returns (ps: seq<BezierParticle>, deps: seq<seq<Pixel>>, buf: array<byte>)
    requires img.Valid()
    requires forall i :: 0 <= i < |draws| ==> ValidDraws(draws[i])
    requires |draws| > 0 ==> UsefulPixels(img) != []
    ensures fresh(buf) && buf.Length == |img.data| && buf.Length % 4 == 0
    ensures |ps| == |draws| && |deps| == |ps|
    ensures forall a, b :: 0 <= a < b < |ps| ==> ps[a] != ps[b]
    ensures forall k :: 0 <= k < |ps| ==> fresh(ps[k]) && ps[k].Valid()
    ensures AllMadeFor(ps, UsefulPixels(img), innerWidth, innerHeight, draws)
    ensures forall k :: 0 <= k < |ps| ==> deps[k] == Assigned(UsefulPixels(img), Ends(ps), k)
    ensures forall k, m :: 0 <= k < |deps| && 0 <= m < |deps[k]| ==> 4 * deps[k][m].index < buf.Length
    ensures forall k :: 0 <= k < |ps| ==> ps[k].Snapshot() == Step(Initial, ps[k].speed, false, true, 0.0)
    ensures buf[..] == Apply(Zeros(|img.data|), FrameWrites(deps, FirstStates(Speeds(ps))))
  {
    ps, deps, buf := InitParticles(img, innerWidth, innerHeight, draws);
    RunFirstFrame(ps, deps, buf);
  }

  /** The frame that closes `init`: every particle at rest, the pointer outside, the buffer zeroed. */
  method RunFirstFrame(ps: seq<BezierParticle>, deps: seq<seq<Pixel>>, buf: array<byte>)
    requires |ps| == |deps| && buf.Length % 4 == 0
    requires forall i, j :: 0 <= i < j < |ps| ==> ps[i] != ps[j]
    requires forall i :: 0 <= i < |ps| ==> ps[i].Valid() && ps[i].Snapshot() == Initial
    requires buf[..] == Zeros(buf.Length)
    modifies buf, set p | p in ps
    ensures forall k :: 0 <= k < |ps| ==> ps[k].Valid()
    ensures forall k :: 0 <= k < |ps| ==> ps[k].Snapshot() == Step(Initial, ps[k].speed, false, true, 0.0)
    ensures buf[..] == Apply(Zeros(buf.Length), FrameWrites(deps, FirstStates(Speeds(ps))))
  {
    ghost var olds := Snapshots(ps);
    var dists := seq(|ps|, _ => 0.0);
    AnimateFrame(ps, deps, buf, false, true, dists);
    FirstFrame(olds, Speeds(ps), dists);
    ClearedZeros(buf.Length);
    forall k | 0 <= k < |ps|
      ensures ps[k].Snapshot() == Step(Initial, ps[k].speed, false, true, 0.0)
    {
      assert ps[k].Snapshot() == Snapshots(ps)[k] == FirstStates(Speeds(ps))[k];
    }
  }

  class BezierAnimation {
    var width: nat
    var height: nat
    var offsetX: real
    var offsetY: real
    var particles: seq<BezierParticle>
    var dependents: seq<seq<Pixel>>
    var data: array<byte>

    ghost predicate Valid()
      reads this, set p | p in particles
    {
      Shaped() && forall k :: 0 <= k < |particles| ==> particles[k].Valid()
    }

    /** The part of the invariant about this object's own fields. */
    ghost predicate Shaped()
      reads this
    {
      data.Length % 4 == 0 &&
      |dependents| == |particles| &&
      (forall i, j :: 0 <= i < j < |particles| ==> particles[i] != particles[j]) &&
      (forall k, m :: 0 <= k < |dependents| && 0 <= m < |dependents[k]| ==> 4 * dependents[k][m].index < data.Length)
    }

    /**
      The constructor followed by `init` once the image is loaded: size the canvas to the
      window, extract the useful pixels, create one particle per draw bound for a
      randomly picked useful pixel, hand every useful pixel to its nearest particle, and
      run the first frame, with the button up and the pointer outside the canvas.
     */
    constructor (img: Image, innerWidth: nat, innerHeight: nat, draws: seq<ReconDraws>)
      requires img.Valid()
      requires forall i :: 0 <= i < |draws| ==> ValidDraws(draws[i])
      requires |draws| > 0 ==> UsefulPixels(img) != []
      ensures Valid() && fresh(data)
      ensures width == innerWidth && height == innerHeight
      ensures |particles| == |draws|
      ensures forall k :: 0 <= k < |particles| ==> fresh(particles[k])
      ensures AllMadeFor(particles, UsefulPixels(img), innerWidth, innerHeight, draws)
      ensures forall k :: 0 <= k < |particles| ==> dependents[k] == Assigned(UsefulPixels(img), Ends(particles), k)
      ensures forall k :: 0 <= k < |particles| ==>
        particles[k].Snapshot() == Step(Initial, particles[k].speed, false, true, 0.0)
      ensures data.Length == |img.data| && data[..] == Apply(Zeros(|img.data|), FrameWrites(dependents, FirstStates(Speeds(particles))))
    {
      width := innerWidth;
      height := innerHeight;
      if img.width != 0 {
        offsetX := (innerWidth - img.width) as real / 2.0;
        offsetY := (innerHeight - img.height) as real / 2.0;
      } else {
        offsetX, offsetY := 0.0, 0.0;
      }
      var ps, deps, buf := Init(img, innerWidth, innerHeight, draws);
      particles, dependents, data := ps, deps, buf;
    }

    /**
      One animation frame: clear every alpha byte, then update each particle and reveal
      its dependent pixels at the alpha its new state gives. `dists[k]` is the pointer's
      distance from particle k.
     */
    method Animate(isMouseDown: bool, isOutside: bool, dists: seq<real>)
      requires Valid()
      requires |dists| == |particles| && forall k :: 0 <= k < |dists| ==> dists[k] >= 0.0
      modifies data, set p | p in particles
      ensures Valid()
      ensures Snapshots(particles) == Stepped(old(Snapshots(particles)), Speeds(particles), isMouseDown, isOutside, dists)
      ensures data[..] == Apply(AlphaCleared(old(data[..])), FrameWrites(dependents, Snapshots(particles)))
    {
      AnimateFrame(particles, dependents, data, isMouseDown, isOutside, dists);
    }
  }

  /** A frame from rest with the pointer outside takes every particle one step from Initial. */
  lemma FirstFrame(olds: seq<PState>, speeds: seq<real>, dists: seq<real>)
    requires |olds| == |speeds| == |dists| && forall i :: 0 <= i < |dists| ==> dists[i] == 0.0
    requires forall i :: 0 <= i < |olds| ==> olds[i] == Initial
    ensures Stepped(olds, speeds, false, true, dists) == FirstStates(speeds)
  {
    forall i | 0 <= i < |olds|
      ensures Stepped(olds, speeds, false, true, dists)[i] == FirstStates(speeds)[i]
    {
      SteppedAt(olds, speeds, false, true, dists, i);
    }
  }

  /** The states `init`'s first frame leaves: every particle one undisturbed step from Initial. */
  function FirstStates(speeds: seq<real>): seq<PState>
  {
    seq(|speeds|, i requires 0 <= i < |speeds| => Step(Initial, speeds[i], false, true, 0.0))
  }

  /** One particle's turn in a frame: update it, then reveal its dependent pixels at the alpha of its new state. */
  method RevealParticle(p: BezierParticle, pxs: seq<Pixel>, data: array<byte>, isMouseDown: bool, isOutside: bool, dist: real)
    requires p.Valid() && data.Length % 4 == 0 && dist >= 0.0
    modifies data, p
    ensures p.Valid()
    ensures p.Snapshot() == Step(old(p.Snapshot()), p.speed, isMouseDown, isOutside, dist)
    ensures data[..] == Apply(old(data[..]), RevealWrites(pxs, RevealAlpha(p.Snapshot())))
  {
    p.Update(isMouseDown, isOutside, dist);
    var revealAlpha := if p.state < 1.0 then 0 else 255 - p.alpha;
    PaintAll(data, RevealWrites(pxs, Clamped(revealAlpha)));
  }

  /** The const speeds of the particles. */
  function Speeds(ps: seq<BezierParticle>): (r: seq<real>)
    ensures |r| == |ps| && forall i :: 0 <= i < |ps| ==> r[i] == ps[i].speed
  {
    seq(|ps|, i requires 0 <= i < |ps| => ps[i].speed)
  }

  /** Every particle's state after one frame, each stepped with its own speed and pointer distance. */
  function Stepped(olds: seq<PState>, speeds: seq<real>, isMouseDown: bool, isOutside: bool, dists: seq<real>): (news: seq<PState>)
    requires |olds| == |speeds| == |dists| && forall i :: 0 <= i < |dists| ==> dists[i] >= 0.0
    ensures |news| == |olds| && forall i :: 0 <= i < |news| ==> Consistent(news[i])
  {
    if olds == [] then []
    else
      var n := |olds| - 1;
      Stepped(olds[..n], speeds[..n], isMouseDown, isOutside, dists[..n]) + [Step(olds[n], speeds[n], isMouseDown, isOutside, dists[n])]
  }

  /** Stepped steps each particle on its own. */
  lemma {:induction false} SteppedAt(olds: seq<PState>, speeds: seq<real>, isMouseDown: bool, isOutside: bool, dists: seq<real>, i: nat)
    requires |olds| == |speeds| == |dists| && forall i :: 0 <= i < |dists| ==> dists[i] >= 0.0
    requires i < |olds|
    ensures Stepped(olds, speeds, isMouseDown, isOutside, dists)[i] == Step(olds[i], speeds[i], isMouseDown, isOutside, dists[i])
  {
    var n := |olds| - 1;
    if i < n {
      SteppedAt(olds[..n], speeds[..n], isMouseDown, isOutside, dists[..n], i);
    }
  }

  /**
    The facts the per-particle loop of a frame keeps: the first k particles have been
    stepped and their pixels revealed over `buf0`, the rest still hold their old states.
   */
  ghost predicate FrameProgress(ps: seq<BezierParticle>, deps: seq<seq<Pixel>>, data: array<byte>, buf0: seq<byte>,
                                isMouseDown: bool, isOutside: bool, dists: seq<real>, olds: seq<PState>, k: nat, ss: seq<PState>)
    reads data, set p | p in ps
  {
    |ps| == |deps| == |dists| == |olds| && k <= |ps| && data.Length % 4 == 0 && |buf0| == data.Length &&
    (forall i :: 0 <= i < |ps| ==> dists[i] >= 0.0) &&
    ss == Stepped(olds[..k], Speeds(ps)[..k], isMouseDown, isOutside, dists[..k]) &&
    (forall i :: 0 <= i < k ==> ps[i].Snapshot() == ss[i]) &&
    (forall i :: k <= i < |ps| ==> ps[i].Snapshot() == olds[i]) &&
    data[..] == Apply(buf0, FrameWrites(deps[..k], ss))
  }

  /** The facts about the particles that a frame does not change. */
  ghost predicate Steady(ps: seq<BezierParticle>, dists: seq<real>, olds: seq<PState>)
  {
    |ps| == |dists| == |olds| &&
    (forall i, j :: 0 <= i < j < |ps| ==> ps[i] != ps[j]) &&
    forall i :: 0 <= i < |ps| ==>
      dists[i] >= 0.0 && ps[i].nominalSize >= 0.0 && 2.0 <= ps[i].speed < 3.0 && Consistent(olds[i])
  }

  /** One iteration of the per-particle loop: particle k is stepped and its pixels revealed. */
  method StepOne(ps: seq<BezierParticle>, deps: seq<seq<Pixel>>, data: array<byte>,
                 isMouseDown: bool, isOutside: bool, dists: seq<real>,
                 k: nat, ghost buf0: seq<byte>, ghost olds: seq<PState>, ghost ss: seq<PState>) returns (ghost ss': seq<PState>)
    requires k < |ps| && Steady(ps, dists, olds)
    requires FrameProgress(ps, deps, data, buf0, isMouseDown, isOutside, dists, olds, k, ss)
    modifies data, ps[k]
    ensures FrameProgress(ps, deps, data, buf0, isMouseDown, isOutside, dists, olds, k + 1, ss')
  {
    assert ps[k].Snapshot() == olds[k];
    assert |ss| == k;
    ghost var before := data[..];
    ghost var speeds := Speeds(ps);
    RevealAt(ps, deps, data, isMouseDown, isOutside, dists, k);
    ss' := ss + [ps[k].Snapshot()];
    ProgressStep(deps, buf0, before, data[..], isMouseDown, isOutside, dists, olds, speeds, k, ss, ps[k].Snapshot());
  }

  /** Updates particle k and reveals its dependent pixels; every other particle keeps its state. */
  method RevealAt(ps: seq<BezierParticle>, deps: seq<seq<Pixel>>, data: array<byte>,
                  isMouseDown: bool, isOutside: bool, dists: seq<real>, k: nat)
    requires |ps| == |deps| == |dists| && k < |ps| && data.Length % 4 == 0
    requires forall i, j :: 0 <= i < j < |ps| ==> ps[i] != ps[j]
    requires ps[k].Valid() && dists[k] >= 0.0
    modifies data, ps[k]
    ensures ps[k].Valid()
    ensures ps[k].Snapshot() == Step(old(ps[k].Snapshot()), ps[k].speed, isMouseDown, isOutside, dists[k])
    ensures data[..] == Apply(old(data[..]), RevealWrites(deps[k], RevealAlpha(ps[k].Snapshot())))
    ensures forall i :: 0 <= i < |ps| && i != k ==> ps[i].Snapshot() == old(ps[i].Snapshot())
  {
    var p := ps[k];
    RevealParticle(p, deps[k], data, isMouseDown, isOutside, dists[k]);
    forall i | 0 <= i < |ps| && i != k
      ensures ps[i].Snapshot() == old(ps[i].Snapshot())
    {
      assert ps[i] != p;
    }
  }

  /** The pure half of a particle's turn: the states and the buffer both grow by that particle's step. */
  lemma ProgressStep(deps: seq<seq<Pixel>>, buf0: seq<byte>, before: seq<byte>, after: seq<byte>,
                     isMouseDown: bool, isOutside: bool, dists: seq<real>, olds: seq<PState>, speeds: seq<real>,
                     k: nat, ss: seq<PState>, s: PState)
    requires |deps| == |olds| == |speeds| == |dists| && k < |olds| && |ss| == k && |buf0| % 4 == 0
    requires forall i :: 0 <= i < |dists| ==> dists[i] >= 0.0
    requires ss == Stepped(olds[..k], speeds[..k], isMouseDown, isOutside, dists[..k])
    requires s == Step(olds[k], speeds[k], isMouseDown, isOutside, dists[k])
    requires before == Apply(buf0, FrameWrites(deps[..k], ss))
    requires after == Apply(before, RevealWrites(deps[k], RevealAlpha(s)))
    ensures ss + [s] == Stepped(olds[..k + 1], speeds[..k + 1], isMouseDown, isOutside, dists[..k + 1])
    ensures after == Apply(buf0, FrameWrites(deps[..k + 1], ss + [s]))
  {
    SteppedPrefix(olds, speeds, isMouseDown, isOutside, dists, k);
    FrameWritesPrefix(deps, ss, s, k);
    ApplyConcat(buf0, FrameWrites(deps[..k], ss), RevealWrites(deps[k], RevealAlpha(s)));
  }

  lemma SteppedPrefix(olds: seq<PState>, speeds: seq<real>, isMouseDown: bool, isOutside: bool, dists: seq<real>, k: nat)
    requires |olds| == |speeds| == |dists| && k < |olds| && forall i :: 0 <= i < |dists| ==> dists[i] >= 0.0
    ensures Stepped(olds[..k + 1], speeds[..k + 1], isMouseDown, isOutside, dists[..k + 1]) ==
      Stepped(olds[..k], speeds[..k], isMouseDown, isOutside, dists[..k]) + [Step(olds[k], speeds[k], isMouseDown, isOutside, dists[k])]
  {
    assert olds[..k + 1][..k] == olds[..k] && speeds[..k + 1][..k] == speeds[..k] && dists[..k + 1][..k] == dists[..k];
  }

  lemma FrameWritesPrefix(deps: seq<seq<Pixel>>, ss: seq<PState>, s: PState, k: nat)
    requires k < |deps| && |ss| == k
    ensures FrameWrites(deps[..k + 1], ss + [s]) == FrameWrites(deps[..k], ss) + RevealWrites(deps[k], RevealAlpha(s))
  {
    assert deps[..k + 1][..k] == deps[..k] && (ss + [s])[..k] == ss;
  }

  /** The per-particle loop of a frame: each particle in turn is updated and its pixels revealed. */
  method StepAndReveal(ps: seq<BezierParticle>, deps: seq<seq<Pixel>>, data: array<byte>,
                       isMouseDown: bool, isOutside: bool, dists: seq<real>)
    requires |ps| == |deps| == |dists| && data.Length % 4 == 0
    requires forall i, j :: 0 <= i < j < |ps| ==> ps[i] != ps[j]
    requires forall i :: 0 <= i < |ps| ==> ps[i].Valid() && dists[i] >= 0.0
    modifies data, set p | p in ps
    ensures forall i :: 0 <= i < |ps| ==> ps[i].Valid()
    ensures Snapshots(ps) == Stepped(old(Snapshots(ps)), Speeds(ps), isMouseDown, isOutside, dists)
    ensures data[..] == Apply(old(data[..]), FrameWrites(deps, Snapshots(ps)))
  {
    ghost var olds := Snapshots(ps);
    ghost var buf0 := data[..];
    ghost var ss: seq<PState> := [];
    assert Steady(ps, dists, olds);
    for k := 0 to |ps|
      invariant FrameProgress(ps, deps, data, buf0, isMouseDown, isOutside, dists, olds, k, ss)
    {
      ss := StepOne(ps, deps, data, isMouseDown, isOutside, dists, k, buf0, olds, ss);
    }
    FrameDone(ps, deps, data, buf0, isMouseDown, isOutside, dists, olds, ss);
  }

  /** Once every particle has had its turn, the states are the stepped ones and the buffer holds all the frame's writes. */
  lemma FrameDone(ps: seq<BezierParticle>, deps: seq<seq<Pixel>>, data: array<byte>, buf0: seq<byte>,
                  isMouseDown: bool, isOutside: bool, dists: seq<real>, olds: seq<PState>, ss: seq<PState>)
    requires Steady(ps, dists, olds)
    requires FrameProgress(ps, deps, data, buf0, isMouseDown, isOutside, dists, olds, |ps|, ss)
    ensures forall i :: 0 <= i < |ps| ==> ps[i].Valid()
    ensures Snapshots(ps) == Stepped(olds, Speeds(ps), isMouseDown, isOutside, dists)
    ensures data[..] == Apply(buf0, FrameWrites(deps, Snapshots(ps)))
  {
    assert olds[..|ps|] == olds && Speeds(ps)[..|ps|] == Speeds(ps);
    assert dists[..|ps|] == dists && deps[..|ps|] == deps;
    assert ss == Snapshots(ps);
  }

  /**
    The body of a frame: clear every alpha byte, then update each particle in turn
    and reveal its dependent pixels at the alpha of its new state.
   */
  method AnimateFrame(ps: seq<BezierParticle>, deps: seq<seq<Pixel>>, data: array<byte>,
                      isMouseDown: bool, isOutside: bool, dists: seq<real>)
    requires |ps| == |deps| == |dists| && data.Length % 4 == 0
    requires forall i, j :: 0 <= i < j < |ps| ==> ps[i] != ps[j]
    requires forall i :: 0 <= i < |ps| ==> ps[i].Valid() && dists[i] >= 0.0
    modifies data, set p | p in ps
    ensures forall i :: 0 <= i < |ps| ==> ps[i].Valid()
    ensures Snapshots(ps) == Stepped(old(Snapshots(ps)), Speeds(ps), isMouseDown, isOutside, dists)
    ensures data[..] == Apply(AlphaCleared(old(data[..])), FrameWrites(deps, Snapshots(ps)))
  {
    ghost var olds := Snapshots(ps);
    ClearAlpha(data);
    assert Snapshots(ps) == olds;
    StepAndReveal(ps, deps, data, isMouseDown, isOutside, dists);
  }

}

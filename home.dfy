/**
 * The scroll effects of the home page (home.js), reduced to their decision
 * rules: the animation-frame throttle of the parallax, the parallax step on
 * the hero video, the header variant, the call-to-action scroll target and
 * the one-way reveal of the page's sections.
 */
module Home {

  datatype Option<T> = None | Some(value: T)

  /**
   * A vertical scroll offset (window.pageYOffset). Taking it non-negative is
   * an assumption of this model: elastic overscroll can make it negative.
   */
  type Offset = r: real | r >= 0.0

  // ---------------------------------------------------------------------------
  // Parallax on the hero video
  // ---------------------------------------------------------------------------

  /** The video moves at this fraction of the scroll speed. */
  const ParallaxSpeed: real := 0.5
  /** Across the whole hero section the opacity would drop by this much. */
  const FadeDepth: real := 0.7
  /** The opacity is never written below this value. */
  const OpacityFloor: real := 0.3

  function Max(a: real, b: real): real
  {
    if a >= b then a else b
  }

  /**
   * The opacity written at offset `scroll` inside a hero section of height
   * `heroHeight`. Inside the hero the floor never binds: the opacity is the
   * linear fade itself, 1 at the top and strictly above the floor.
   */
  function ParallaxOpacity(scroll: Offset, heroHeight: nat): (o: real)
    requires scroll < heroHeight as real
    ensures OpacityFloor < o <= 1.0
    ensures o == 1.0 - (scroll / heroHeight as real) * FadeDepth
    ensures scroll == 0.0 ==> o == 1.0
  {
    var h := heroHeight as real;
    assert 0.0 <= scroll / h < 1.0 by { assert scroll / h * h == scroll; }
    Max(1.0 - (scroll / h) * FadeDepth, OpacityFloor)
  }

  /** Scrolling further down never makes the video more opaque, and a strict move fades it strictly. */
  lemma OpacityFades(s1: Offset, s2: Offset, heroHeight: nat)
    requires s1 <= s2 < heroHeight as real
    ensures ParallaxOpacity(s2, heroHeight) <= ParallaxOpacity(s1, heroHeight)
    ensures s1 < s2 ==> ParallaxOpacity(s2, heroHeight) < ParallaxOpacity(s1, heroHeight)
  {
    var h := heroHeight as real;
    assert s1 / h * h == s1 && s2 / h * h == s2;
    if s1 < s2 {
      assert s1 / h < s2 / h;
    }
  }

  /** Every opacity above the floor, up to 1, is written at some offset inside the hero. */
  lemma OpacityCoversRange(target: real, heroHeight: nat) returns (scroll: Offset)
    requires OpacityFloor < target <= 1.0 && heroHeight > 0
    ensures scroll < heroHeight as real
    ensures ParallaxOpacity(scroll, heroHeight) == target
  {
    var h := heroHeight as real;
    var fraction := (1.0 - target) / FadeDepth;
    assert 0.0 <= fraction < 1.0;
    scroll := fraction * h;
    assert scroll / h == fraction;
  }

  /**
   * The parallax state: the `ticking` flag, the animation frames requested
   * and not yet run (they belong to the browser, so the count is ghost), and
   * the transform offset and opacity last written to the video's inline style
   * (None until the first write).
   */
  class Parallax {
    var ticking: bool
    ghost var pendingFrames: nat
    var videoTranslateY: Option<real>
    var videoOpacity: Option<real>

    /** `ticking` holds exactly when one frame is pending, and never more than one is. */
    ghost predicate Valid()
      reads this
    {
      pendingFrames == if ticking then 1 else 0
    }

    constructor ()
      ensures Valid() && !ticking && pendingFrames == 0
      ensures videoTranslateY == None && videoOpacity == None
    {
      ticking := false;
      pendingFrames := 0;
      videoTranslateY, videoOpacity := None, None;
    }

    /** The scroll listener: it requests a frame unless one is already pending. */
    method RequestTick()
      requires Valid()
      modifies this
      ensures Valid() && ticking
      ensures pendingFrames == if old(ticking) then old(pendingFrames) else old(pendingFrames) + 1
      ensures videoTranslateY == old(videoTranslateY) && videoOpacity == old(videoOpacity)
    {
      if !ticking {
        pendingFrames := pendingFrames + 1;
        ticking := true;
      }
    }

    /**
     * The frame callback, run by the browser for a pending frame with the
     * current offset and hero height. Inside the hero it writes the shift and
     * the opacity; from the hero's height on it writes nothing. Either way it
     * clears `ticking`.
     */
    method UpdateParallax(scroll: Offset, heroHeight: nat)
      requires Valid() && pendingFrames > 0
      modifies this
      ensures Valid() && !ticking && pendingFrames == old(pendingFrames) - 1
      ensures scroll < heroHeight as real ==>
        videoTranslateY == Some(scroll * ParallaxSpeed)
        && videoOpacity == Some(ParallaxOpacity(scroll, heroHeight))
      ensures scroll >= heroHeight as real ==>
        videoTranslateY == old(videoTranslateY) && videoOpacity == old(videoOpacity)
    {
      if scroll < heroHeight as real {
        var translateY := scroll * ParallaxSpeed;
        videoTranslateY := Some(translateY);
        var h := heroHeight as real;
        var opacity := 1.0 - (scroll / h) * FadeDepth;
        videoOpacity := Some(Max(opacity, OpacityFloor));
      }
      pendingFrames := pendingFrames - 1;
      ticking := false;
    }
  }

  /**
   * A burst of `events` scroll events before the next frame: however many
   * there are, exactly one frame is pending afterwards, and the video's style
   * is not touched.
   */
  method ScrollBurst(p: Parallax, events: nat)
    requires p.Valid() && !p.ticking && events >= 1
    modifies p
    ensures p.Valid() && p.ticking && p.pendingFrames == 1
    ensures p.videoTranslateY == old(p.videoTranslateY) && p.videoOpacity == old(p.videoOpacity)
  {
    p.RequestTick();
    var i := 1;
    while i < events
      invariant 1 <= i <= events
      invariant p.Valid() && p.ticking && p.pendingFrames == 1
      invariant p.videoTranslateY == old(p.videoTranslateY) && p.videoOpacity == old(p.videoOpacity)
    {
      p.RequestTick();
      i := i + 1;
    }
  }

  /** A burst of scroll events followed by its one frame leaves nothing pending and `ticking` clear. */
  method ScrollBurstThenFrame(p: Parallax, events: nat, scroll: Offset, heroHeight: nat)
    requires p.Valid() && !p.ticking && events >= 1
    modifies p
    ensures p.Valid() && !p.ticking && p.pendingFrames == 0
  {
    ScrollBurst(p, events);
    p.UpdateParallax(scroll, heroHeight);
  }

  // ---------------------------------------------------------------------------
  // Header restyle on scroll
  // ---------------------------------------------------------------------------

  /** The two header styles: each sets a background gradient and a box shadow. */
  datatype HeaderVariant = Solid | SemiTransparent

  /** Past this offset the header turns solid. */
  const SolidThreshold: real := 100.0

  /** The header variant is solid exactly past the threshold. */
  function HeaderVariantFor(offset: Offset): (v: HeaderVariant)
    ensures v == Solid <==> offset > SolidThreshold
    ensures v == SemiTransparent <==> offset <= SolidThreshold
  {
    if offset > SolidThreshold then Solid else SemiTransparent
  }

  /** Once solid, the header stays solid further down the page. */
  lemma HeaderVariantMonotone(o1: Offset, o2: Offset)
    requires o1 <= o2 && HeaderVariantFor(o1) == Solid
    ensures HeaderVariantFor(o2) == Solid
  {
  }

  /** Offsets 0 and 100 give the semi-transparent header, 101 and 10000 the solid one. */
  lemma HeaderExamples()
    ensures HeaderVariantFor(0.0) == SemiTransparent && HeaderVariantFor(100.0) == SemiTransparent
    ensures HeaderVariantFor(101.0) == Solid && HeaderVariantFor(10000.0) == Solid
  {
  }

  /** The page header; `variant` is None until the first scroll event restyles it. */
  class Header {
    var variant: Option<HeaderVariant>

    constructor ()
      ensures variant == None
    {
      variant := None;
    }

    /**
     * The (unthrottled) scroll listener. The new style depends on the current
     * offset alone, so applying it again for the same offset changes nothing.
     */
    method OnScroll(offset: Offset)
      modifies this
      ensures variant == Some(HeaderVariantFor(offset))
    {
      if offset > SolidThreshold {
        variant := Some(Solid);
      } else {
        variant := Some(SemiTransparent);
      }
    }
  }

  /** Restyling twice for the same offset leaves the header as one restyle does. */
  method HeaderRestyleIdempotent(header: Header, offset: Offset)
    modifies header
    ensures header.variant == Some(HeaderVariantFor(offset))
  {
    header.OnScroll(offset);
    ghost var once := header.variant;
    header.OnScroll(offset);
    assert header.variant == once;
  }

  // ---------------------------------------------------------------------------
  // Smooth scroll for the call-to-action button
  // ---------------------------------------------------------------------------

  /** The height of the fixed header that the scroll target leaves clear. */
  const HeaderClearance: int := 160

  /**
   * Where a click on the call-to-action scrolls to, given the offsetTop of
   * the element its href names (None when no element matches): nowhere when
   * there is no target, otherwise to the point that puts the target exactly
   * the header's height below the top of the viewport.
   */
  function CtaScrollTop(targetTop: Option<int>): (top: Option<int>)
    ensures top.Some? <==> targetTop.Some?
    ensures top.Some? ==> targetTop.value - top.value == HeaderClearance
  {
    match targetTop
    case None => None
    case Some(t) => Some(t - HeaderClearance)
  }

  /** The window, reduced to the target of the last smooth scroll it was asked for. */
  class Viewport {
    var scrollRequest: Option<int>

    constructor ()
      ensures scrollRequest == None
    {
      scrollRequest := None;
    }

    /** The click handler: it asks for a scroll only when the target exists. */
    method OnCtaClick(targetTop: Option<int>)
      modifies this
      ensures targetTop.None? ==> scrollRequest == old(scrollRequest)
      ensures targetTop.Some? ==> scrollRequest == CtaScrollTop(targetTop)
    {
      if targetTop.Some? {
        var offsetPosition := targetTop.value - HeaderClearance;
        scrollRequest := Some(offsetPosition);
      }
    }
  }

  // ---------------------------------------------------------------------------
  // Section reveal
  // ---------------------------------------------------------------------------

  /** A section's inline opacity and vertical offset (in px), or nothing written yet. */
  datatype SectionStyle = Unstyled | Styled(opacity: real, translateY: real)

  /** The style every section gets at load: transparent and 30px down. */
  const Concealed: SectionStyle := Styled(0.0, 30.0)
  /** The style the observer gives a section it reports visible: opaque and in place. */
  const Revealed: SectionStyle := Styled(1.0, 0.0)

  /** A `main section` element. */
  class Section {
    var style: SectionStyle
    var hasTransition: bool

    constructor ()
      ensures style == Unstyled && !hasTransition
    {
      style := Unstyled;
      hasTransition := false;
    }
  }

  /** One intersection report: its target and whether it is intersecting. */
  datatype Entry = Entry(target: Section, isIntersecting: bool)

  /** Some entry of `entries` reports `s` as intersecting. */
  ghost predicate ReportsVisible(entries: seq<Entry>, s: Section)
  {
    exists e :: e in entries && e.target == s && e.isIntersecting
  }

  /** The section observer, reduced to the set of sections it watches. */
  class SectionObserver {
    var observed: set<Section>

    constructor ()
      ensures observed == {}
    {
      observed := {};
    }

    /** The load-time loop: conceal every section, give it its transition and observe it. */
    method ObserveSections(sections: seq<Section>)
      modifies this, set s | s in sections
      ensures observed == old(observed) + set s | s in sections
      ensures forall s :: s in sections ==> s.style == Concealed && s.hasTransition
    {
      for i := 0 to |sections|
        invariant observed == old(observed) + set k | 0 <= k < i :: sections[k]
        invariant forall k :: 0 <= k < i ==> sections[k].style == Concealed && sections[k].hasTransition
      {
        sections[i].style := Concealed;
        sections[i].hasTransition := true;
        observed := observed + {sections[i]};
      }
      assert (set k | 0 <= k < |sections| :: sections[k]) == set s | s in sections;
    }

    /**
     * The observer callback. A target reported as intersecting is revealed;
     * every other target keeps its style. Nothing is ever concealed again,
     * so a revealed section stays revealed.
     */
    method OnEntries(entries: seq<Entry>)
      modifies set e | e in entries :: e.target
      ensures forall e :: e in entries ==> e.target.hasTransition == old(e.target.hasTransition)
      ensures forall e :: e in entries ==>
        e.target.style == if ReportsVisible(entries, e.target) then Revealed else old(e.target.style)
      ensures forall e :: e in entries && old(e.target.style) == Revealed ==> e.target.style == Revealed
    {
      var i := 0;
      while i < |entries|
        invariant 0 <= i <= |entries|
        invariant forall e :: e in entries ==> e.target.hasTransition == old(e.target.hasTransition)
        invariant forall e :: e in entries ==>
          e.target.style == if ReportsVisible(entries[..i], e.target) then Revealed else old(e.target.style)
      {
        var entry := entries[i];
        assert entries[..i + 1] == entries[..i] + [entry];
        if entry.isIntersecting {
          entry.target.style := Revealed;
        }
        i := i + 1;
      }
      assert entries[..i] == entries;
    }
  }
}

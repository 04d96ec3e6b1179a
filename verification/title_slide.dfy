/**
 * The title slide's reveal: hidden at construction when an entrance
 * animation is configured, shown on the first "view did appear", and the
 * animation consumed so that it plays at most once.
 *
 * Running an animation is an asynchronous UIKit effect; the model records
 * each invocation (the effect, its preferred duration and delay) in the
 * order it was made, and nothing else about it.
 */
module TitleSlide {
  import opened Wrappers
  import opened AttributedTitle

  /** An entrance effect from the configuration's closed set, compared by name only. */
  datatype Animation = Animation(name: string)

  /** The fixed timing profile the slide passes to its animation, in seconds. */
  const PreferredDuration: real := 0.5
  const PreferredDelay: real := 0.2

  /** One call of an animation on the title label, with the timing it was given. */
  datatype Invocation = Invocation(animation: Animation, preferredDuration: real, preferredDelay: real)

  /** The parts of the "what's new" configuration the title slide reads; `animation` is also written back. */
  datatype Configuration = Configuration(
    backgroundColor: Color,
    secondaryColor: Option<SecondaryColor>,
    animation: Option<Animation>
  )

  /** A title slide: its fixed title and label, its (partly mutable) configuration, whether its view is hidden, and the animations played so far. */
  datatype Slide = Slide(
    titleText: seq<char>,
    configuration: Configuration,
    titleLabel: LabelText,
    backgroundColor: Color,
    hidden: bool,
    played: seq<Invocation>
  )

  /** The invocation the slide makes for `animation`, with the fixed timing profile. */
  function Play(animation: Animation): Invocation {
    Invocation(animation, PreferredDuration, PreferredDelay)
  }

  /**
   * Construction: keep the title and configuration, build the label (the
   * first access to `view` loads it), take the background colour, and hide
   * the view exactly when an animation is configured.
   */
  function Init(title: seq<char>, configuration: Configuration): (s: Slide)
    ensures s.hidden <==> configuration.animation.Some?
    ensures s.played == []
    ensures s.titleText == title && s.configuration == configuration
    ensures s.backgroundColor == configuration.backgroundColor
    ensures Characters(s.titleLabel) == title
    ensures s.titleLabel.Attributed? <==> configuration.secondaryColor.Some?
    ensures s.titleLabel == TitleLabelText(title, configuration.secondaryColor)
  {
    Slide(
      title,
      configuration,
      TitleLabelText(title, configuration.secondaryColor),
      configuration.backgroundColor,
      configuration.animation != None,
      []
    )
  }

  /**
   * One "view did appear": show the view, play the configured animation if
   * there is one, then clear it from the configuration.
   */
  function ViewDidAppear(s: Slide): (r: Slide)
    ensures !r.hidden
    ensures r.configuration.animation.None?
    ensures r.configuration.backgroundColor == s.configuration.backgroundColor
    ensures r.configuration.secondaryColor == s.configuration.secondaryColor
    ensures r.titleText == s.titleText && r.titleLabel == s.titleLabel && r.backgroundColor == s.backgroundColor
    ensures |r.played| == |s.played| + s.configuration.animation.Count()
    ensures r.played[..|s.played|] == s.played
    ensures s.configuration.animation.Some? ==>
              r.played[|s.played|] == Play(s.configuration.animation.value)
  {
    var shown := s.(hidden := false);
    var played := match shown.configuration.animation
      case Some(a) => shown.played + [Play(a)]
      case None => shown.played;
    shown.(played := played, configuration := shown.configuration.(animation := None))
  }

  /** `n` "view did appear" events in a row. */
  function AppearTimes(s: Slide, n: nat): Slide
    decreases n
  {
    if n == 0 then s else AppearTimes(ViewDidAppear(s), n - 1)
  }

  /** A second "view did appear" changes nothing: the view is already shown and the animation already cleared. */
  lemma ViewDidAppearIdempotent(s: Slide)
    ensures ViewDidAppear(ViewDidAppear(s)) == ViewDidAppear(s)
  {
  }

  /** Any positive number of appearances ends where the first one did. */
  lemma {:induction false} AppearTimesIsFirstAppearance(s: Slide, n: nat)
    requires n >= 1
    ensures AppearTimes(s, n) == ViewDidAppear(s)
    decreases n
  {
    if n > 1 {
      AppearTimesIsFirstAppearance(ViewDidAppear(s), n - 1);
      ViewDidAppearIdempotent(s);
    }
  }

  /**
   * At-most-once playback: across any number of appearances after
   * construction, the configured animation is played exactly once (with
   * duration 0.5 and delay 0.2) if there was one and at least one appearance,
   * and never otherwise; after the first appearance the view is shown and
   * the animation cleared.
   */
  lemma {:induction false} PlaysAtMostOnce(title: seq<char>, configuration: Configuration, n: nat)
    ensures AppearTimes(Init(title, configuration), n).played ==
              if n >= 1 && configuration.animation.Some?
              then [Play(configuration.animation.value)]
              else []
    ensures n >= 1 ==> !AppearTimes(Init(title, configuration), n).hidden
    ensures n >= 1 ==> AppearTimes(Init(title, configuration), n).configuration.animation.None?
    ensures n == 0 ==> (AppearTimes(Init(title, configuration), n).hidden <==> configuration.animation.Some?)
  {
    if n >= 1 {
      AppearTimesIsFirstAppearance(Init(title, configuration), n);
    }
  }

  /** Corollary: however many appear events arrive, the animation is invoked at most once. */
  lemma AnimationInvokedAtMostOnce(title: seq<char>, configuration: Configuration, n: nat)
    ensures |AppearTimes(Init(title, configuration), n).played| <= 1
  {
    PlaysAtMostOnce(title, configuration, n);
  }

  /**
   * Constructs a slide and delivers `n` "view did appear" events to it,
   * returning the final slide; its contract is the at-most-once guarantee.
   */
  method Present(title: seq<char>, configuration: Configuration, n: nat) returns (s: Slide)
    ensures s.titleText == title
    ensures s.hidden <==> n == 0 && configuration.animation.Some?
    ensures n >= 1 ==> s.configuration.animation.None?
    ensures s.played ==
              if n >= 1 && configuration.animation.Some?
              then [Play(configuration.animation.value)]
              else []
  {
    s := Init(title, configuration);
    var i := 0;
    while i < n
      invariant 0 <= i <= n
      invariant i == 0 ==> s == Init(title, configuration)
      invariant i >= 1 ==> s == ViewDidAppear(Init(title, configuration))
    {
      s := ViewDidAppear(s);
      i := i + 1;
    }
  }
}

/**
 * The value-level part of the theme phase: the ground that `setThemeGround`
 * gives a screen for its wall theme.
 */
module Themes {
  import opened Wrappers
  import opened Tiles
  import opened Screens

  /**
   * `setThemeGround` on one screen: the ground family of its wall theme when
   * the switch has a case for it; any other wall leaves the screen as it was.
   */
  function ThemeGround(s: Screen): (r: Screen)
    requires s.defaultWall.Some?
    ensures SameEdges(s, r) && SameFlags(s, r) && r.defaultWall == s.defaultWall
    ensures IsThemeWall(s.defaultWall.value) ==> r.defaultGround == GroundFor(s.defaultWall.value)
    ensures !IsThemeWall(s.defaultWall.value) ==> r == s
  {
    match GroundFor(s.defaultWall.value)
    case Some(g) => s.(defaultGround := Some(g))
    case None => s
  }

  /** A screen after the theme phase: a theme wall and the ground family that goes with it. */
  ghost predicate ThemedScreen(s: Screen)
  {
    s.defaultWall.Some? && IsThemeWall(s.defaultWall.value) && s.defaultGround == GroundFor(s.defaultWall.value)
  }

  /** Grounding a screen whose wall is a theme wall leaves it fully themed. */
  lemma {:induction false} ThemeGroundThemed(s: Screen)
    requires s.defaultWall.Some? && IsThemeWall(s.defaultWall.value)
    ensures ThemedScreen(ThemeGround(s)) && ThemeGround(s).defaultWall == s.defaultWall
  {
  }
}

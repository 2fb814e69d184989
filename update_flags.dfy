/**
 * The static "needs refresh" flags one screen raises for another:
 * `VideoGridViewController.needsFollowsUpdate` / `needsPopularUpdate`
 * and `PosterItemsListViewController.needsGameUpdate` /
 * `needsCommunityUpdate`.  The app keeps them in static fields; here one
 * shared object holds them and is passed to the screens that read or
 * write them.
 */
module UpdateFlags {
  class Flags {
    var needsFollowsUpdate: bool
    var needsPopularUpdate: bool
    var needsGameUpdate: bool
    var needsCommunityUpdate: bool

    /** All four start lowered, as the static initialisers say. */
    constructor ()
      ensures !needsFollowsUpdate && !needsPopularUpdate && !needsGameUpdate && !needsCommunityUpdate
    {
      needsFollowsUpdate := false;
      needsPopularUpdate := false;
      needsGameUpdate := false;
      needsCommunityUpdate := false;
    }
  }
}

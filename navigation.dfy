/**
 * The active-link highlighting of the navigation bar (`initNavigation` in script.js):
 * on every scroll, the current section is the last one, in document order, whose top
 * is at most 200 pixels below the scroll position, and the links pointing at it are
 * marked active.
 */
module Navigation {
  import opened Wrappers
  import opened JsString

  /** How far above a section's top the page may be scrolled for it to count. */
  const ActivationMargin := 200

  /** A `<section>`: its `id` attribute (`None` when it has none) and its `offsetTop`. */
  datatype Section = Section(id: Option<string>, offsetTop: int)

  predicate Reached(s: Section, scrollY: int) {
    scrollY >= s.offsetTop - ActivationMargin
  }

  /** Index of the last reached section, or -1 when none is reached. */
  function LastReached(sections: seq<Section>, scrollY: int): (r: int)
    ensures -1 <= r < |sections|
    ensures r >= 0 ==> Reached(sections[r], scrollY)
    ensures forall j | r < j < |sections| :: !Reached(sections[j], scrollY)
  {
    if |sections| == 0 then -1
    else if Reached(sections[|sections| - 1], scrollY) then |sections| - 1
    else LastReached(sections[..|sections| - 1], scrollY)
  }

  /** The value the scroll handler leaves in `current`: the id of the last reached
      section, or `''` when none is reached. */
  function CurrentId(sections: seq<Section>, scrollY: int): (r: Option<string>)
    ensures (forall j | 0 <= j < |sections| :: !Reached(sections[j], scrollY)) ==> r == Some("")
    ensures (exists j | 0 <= j < |sections| :: Reached(sections[j], scrollY)) ==>
      exists i | 0 <= i < |sections| ::
        && Reached(sections[i], scrollY) && r == sections[i].id
        && forall j | i < j < |sections| :: !Reached(sections[j], scrollY)
  {
    var r := LastReached(sections, scrollY);
    if r < 0 then Some("") else sections[r].id
  }

  /** What a link points at: `href.substring(1)`, everything after the first character. */
  function LinkTarget(href: string): (r: string)
    ensures |href| >= 1 ==> r == href[1..]
    ensures |href| == 0 ==> r == ""
  {
    Substring(href, 1, |href|)
  }

  /** The `forEach` over the sections that updates `current`. */
  method FindCurrent(sections: seq<Section>, scrollY: int) returns (current: Option<string>)
    ensures current == CurrentId(sections, scrollY)
  {
    current := Some("");
    var i := 0;
    while i < |sections|
      invariant 0 <= i <= |sections|
      invariant current == CurrentId(sections[..i], scrollY)
    {
      assert sections[..i + 1][..i] == sections[..i];
      if scrollY >= sections[i].offsetTop - ActivationMargin {
        current := sections[i].id;
      }
      i := i + 1;
    }
    assert sections[..i] == sections;
  }

  /** The `forEach` over the links: each loses `active`, and gets it back exactly when
      its target equals `current`. */
  method HighlightLinks(hrefs: seq<string>, active: array<bool>, current: Option<string>)
    requires active.Length == |hrefs|
    modifies active
    ensures forall i | 0 <= i < |hrefs| :: active[i] <==> current == Some(LinkTarget(hrefs[i]))
  {
    var i := 0;
    while i < |hrefs|
      invariant 0 <= i <= |hrefs|
      invariant forall k | 0 <= k < i :: active[k] <==> current == Some(LinkTarget(hrefs[k]))
    {
      active[i] := false;
      if current == Some(LinkTarget(hrefs[i])) {
        active[i] := true;
      }
      i := i + 1;
    }
  }

  /** The whole scroll handler. */
  method OnScroll(sections: seq<Section>, scrollY: int, hrefs: seq<string>, active: array<bool>)
    requires active.Length == |hrefs|
    modifies active
    ensures forall i | 0 <= i < |hrefs| ::
      active[i] <==> CurrentId(sections, scrollY) == Some(LinkTarget(hrefs[i]))
  {
    var current := FindCurrent(sections, scrollY);
    HighlightLinks(hrefs, active, current);
  }

  /** Scrolling further down never moves the current section back up the page. */
  lemma ScrollMonotone(sections: seq<Section>, y1: int, y2: int)
    requires y1 <= y2
    ensures LastReached(sections, y1) <= LastReached(sections, y2)
  {
  }

  /** The current section is the one whose top is passed by the scroll position and
      whose successor's is not, when offsets grow down the page. */
  lemma CurrentInSortedPage(sections: seq<Section>, scrollY: int, k: int)
    requires forall i, j | 0 <= i < j < |sections| :: sections[i].offsetTop <= sections[j].offsetTop
    requires 0 <= k < |sections| && Reached(sections[k], scrollY)
    requires k + 1 == |sections| || !Reached(sections[k + 1], scrollY)
    ensures LastReached(sections, scrollY) == k
  {
  }

  /** When no section is reached, `current` stays `''`, so a link whose `href` is one
      character long (such as `#`) is marked active. */
  lemma NothingReachedMarksBareLinks(sections: seq<Section>, scrollY: int, href: string)
    requires forall j | 0 <= j < |sections| :: !Reached(sections[j], scrollY)
    requires |href| <= 1
    ensures CurrentId(sections, scrollY) == Some(LinkTarget(href))
  {
  }
}
